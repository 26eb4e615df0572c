# geared — resource ledger, reducer and production tick

A Dafny model of the game logic of *geared*, an idle game. The game has:

- **resources**, which are (kind, amount) records;
- **buildings**, which cost resources, get dearer with every purchase by a fixed multiplier, and produce or consume resources every second.

The model has five modules, one per source file:

| module | file | what it holds |
|---|---|---|
| `Data` | `data.dfy` | The records, and the two helpers of the ledger. `MatchesCost` is the affordability check. `SubtractResources` is a method that debits a cost in place on an array and is proved equal to the pure `Subtract`. The constructor helpers (`MakeWood`, …) are here too. |
| `Reducer` | `state.dfy` | The state `{tps, resources, buildings}`, the two actions and `Reduce`, the reducer. For an `UpdateResource` action, `AddResource` adds the delta to the first resource of its kind, or appends it. For a `PurchaseBuilding` action, `Purchase` is check-then-act: it debits, scales the cost and counts one more. `Dispatch` folds the reducer over a list of actions. |
| `Catalog` | `initial_state.dfy` | The six buildings, the starting resources, the offline constants and the facts about them. |
| `Utils` | `utils.dfy` | `snakeToTitleCase`, and the type-level `SnakeToTitleCase` it agrees with. |
| `Production` | `app.dfy` | The `update` callback: a nested loop (`Production.Update`) that dispatches one `UpdateResource` per building and rate entry, with delta `rate × count / tps`. It also holds the payloads of the two buttons. |

Amounts, cost multipliers and `tps` are exact `real`s, and a building's count is a `nat`.

The repository's snapshot of the kinds does not hang together. `data.ts` declares only three resource kinds and three building kinds, while `initialState.ts` uses six of each. In the same way, `initialState.ts` imports constructors `stone`, `coal` and `ironOre` that `data.ts` does not define. `Data.MakeStone`, `Data.MakeCoal` and `Data.MakeIronOre` stand in for them and are built like the private `resource` helper of `data.ts`. The model therefore uses one closed enumeration of each:

- resources: wood, stone, coal, iron ore, iron, research points;
- buildings: woodcutter, quarry, coal miner, iron miner, furnace, laboratory.

There is a similar mismatch in the state. `initialState.ts` gives the state `saveStart`, `lastSave` and an `offline` record, but the declared state type has only `{tps, resources, buildings}`. The model keeps that three-field state. The two offline values become catalog constants. `initialState.ts` sets no `tps`, so `Catalog.InitialState` takes it as a parameter.

Four behaviours of the code are worth stating explicitly:

- **Production is unguarded.** A tick dispatches every delta, consumptions included, whether or not the stock covers them. `Production.FurnaceRunsDry` proves that a furnace with no ore and no coal drives both negative.
- **No sign check.** The reducer adds a negative delta without any check, so an amount can drop below zero (`Reducer.UpdateNoSignCheck`). In a well-formed state, that no amount is negative is proved to survive a purchase (`Reducer.PurchaseKeepsNonNegative`), but a negative delta can break it. Well-formedness matters here: with a repeated kind, `find` debits the first entry while `some` may have matched another, so the purchase can go negative (`Data.FirstMatchAnyMatch`).
- **A resource is a type and an amount.** `Resource` has only these two fields, so the model's `Resource` has only a kind and an amount.
- **Atomic only through `matchesCost`.** A purchase is atomic only because `matchesCost` runs before `subtractResources`. On its own, `subtractResources` stops at a missing kind and keeps the debits already made (`Data.SubtractNoRollback`, `Data.NoRollbackExample`).

## Model

| member | source | states |
|---|---|---|
| Data.FindResource | src/data.ts:50 | `find` by kind: either the first index holding the kind, or none when no resource has that kind |
| Data.Covers | src/data.ts:42 | true iff some resource of the entry's kind holds at least the entry's amount |
| Data.MatchesCost | src/data.ts:40-44 | true iff every cost entry is covered by some resource of its kind with amount ≥ the entry's |
| Data.EmptyCostMatches | src/data.ts:41 | the empty cost is always affordable |
| Data.AbsentKindFails | src/data.ts:41-42 | a cost entry whose kind is absent from the resources makes the check false |
| Data.MatchesCostMonotone | src/data.ts:40-44 | if every resource is matched in the new list by one of the same kind holding at least as much (in any order, with any extra entries), every affordable cost stays affordable |
| Data.FirstMatchAnyMatch | src/data.ts:42-53 | `some` matches any entry of a kind, `find` debits the first: from [wood 0, wood 10], cost [wood 5] is affordable and the debit leaves [wood −5, wood 10] |
| Data.MatchesCostPresent | src/data.ts:41-42 | an affordable cost names only kinds that are present |
| Data.Debit | src/data.ts:53 | one in-place decrement: that entry loses `x`, every other entry and every kind stays |
| Data.Subtract | src/data.ts:45-57 | length and kinds are kept; the flag is true iff every cost kind is present |
| Data.SubtractResources | src/data.ts:45-57 | the loop over the array leaves exactly the contents and returns exactly the flag that `Subtract` gives for the old contents |
| Data.SubtractAmounts | src/data.ts:49-56 | on success, the first resource of each kind has lost the summed cost of that kind, and every other resource is unchanged |
| Data.SubtractUntouched | src/data.ts:45-57 | a resource whose kind the cost never names is untouched, even on failure |
| Data.SubtractNoRollback | src/data.ts:49-53 | on failure, there is a first missing cost entry `k`; every entry before it was present, and its debits stay applied with no rollback |
| Data.NoRollbackExample | src/data.ts:49-53 | wood 10 against cost [wood 4, iron 1] leaves wood 6 and returns false |
| Data.SubtractAfterMatchNonNegative | src/data.ts:40-56 | with unique kinds on both sides, an affordable cost's subtraction succeeds and leaves every debited amount ≥ 0 |
| Data.MakeWood | src/data.ts:67-69 | a wood resource with exactly the given amount |
| Data.MakeIron | src/data.ts:71-73 | an iron resource with exactly the given amount |
| Data.MakeResearch | src/data.ts:75-77 | a research-points resource with exactly the given amount |
| Data.MakeStone | src/data.ts:60-65 | a stone resource with exactly the given amount |
| Data.MakeCoal | src/data.ts:60-65 | a coal resource with exactly the given amount |
| Data.MakeIronOre | src/data.ts:60-65 | an iron-ore resource with exactly the given amount |
| Reducer.FindBuilding | src/state.ts:43-45 | `find` by building kind: the first index of that kind, or none when the kind is absent |
| Reducer.AddResource | src/state.ts:31-39 | on a present kind, the first resource of it gains the delta and nothing else changes; on an absent kind, the resource is appended at the end |
| Reducer.ScaleCost | src/state.ts:49 | no contract of its own: every cost entry times `m`, kinds and order kept; specified by `Reducer.ScaleTwice` and `Reducer.GrownEntry` |
| Reducer.Bought | src/state.ts:49-50 | no contract of its own: the building after a purchase, its cost scaled by its multiplier and one more owned; specified by `Reducer.PurchaseEffect` and `Reducer.GrownFromBought` |
| Reducer.Purchase | src/state.ts:41-51 | no contract of its own: the `PURCHASE_BUILDING` branch; specified by `Reducer.PurchaseNoOpIff` and `Reducer.PurchaseEffect` |
| Reducer.Reduce | src/state.ts:28-55 | every action keeps `tps`, the number of buildings and their kinds, and never lowers a building's count |
| Reducer.Dispatch | src/App.tsx:9 | the fold of the reducer over dispatched actions keeps `tps` and the number of buildings |
| Reducer.DispatchAppend | src/App.tsx:9 | dispatching `a + b` is dispatching `a`, then `b` |
| Reducer.ReduceKeepsPresent | src/state.ts:28-55 | no action removes a kind, and a resource update makes its own kind present |
| Reducer.DispatchKeepsPresent | src/state.ts:28-55 | once present, a kind stays present under any sequence of actions |
| Reducer.UpdateExisting | src/state.ts:31-37 | a resource update on a present kind changes only the first resource of that kind, by adding the delta; buildings and `tps` are kept |
| Reducer.UpdateAbsent | src/state.ts:38-39 | a resource update on an absent kind appends the given resource, and nothing else changes |
| Reducer.UpdateKeepsAffordable | src/state.ts:31-39 | a non-negative resource update, the append of an absent kind included, never makes an affordable cost unaffordable |
| Reducer.UpdateNoSignCheck | src/state.ts:36 | a negative delta drives an amount below zero |
| Reducer.PurchaseNoOpIff | src/state.ts:46 | a purchase returns the state unchanged iff the kind is absent or its cost is unaffordable |
| Reducer.PurchaseEffect | src/state.ts:48-50 | a successful purchase debits the unscaled cost, scales every cost entry by the multiplier, counts one more, and leaves the other buildings and `tps` alone |
| Reducer.ReduceBuildingStep | src/state.ts:41-51 | under any action, each building either stays as it is or becomes its bought successor |
| Reducer.ScaleTwice | src/state.ts:49 | scaling a cost by `x`, then by `y`, is scaling it by `x·y` |
| Reducer.GrownFromBought | src/state.ts:49-50 | cost growth composes: a building grown from the bought successor of `b0` is grown from `b0` |
| Reducer.CostGeometric | src/state.ts:49-50 | after any sequence of actions, each building's cost is its initial cost scaled by `m^N`, where `N` is the number of purchases made; its kind, multiplier and rates are unchanged |
| Reducer.GrownEntry | src/state.ts:49 | cost entry `i` after `N` purchases is `C0[i]·m^N`, of the same kind |
| Reducer.ReducePreservesWellFormed | src/state.ts:28-55 | unique resource kinds, unique building kinds and unique cost kinds survive every action |
| Reducer.DispatchPreservesWellFormed | src/state.ts:28-55 | the same uniqueness survives any sequence of actions |
| Reducer.PurchaseKeepsNonNegative | src/state.ts:46-48 | in a well-formed state with no negative amount, a purchase leaves no negative amount |
| Catalog.InitialState | src/initialState.ts:64-73 | the starting state has the given `tps` and is well formed |
| Catalog.InitialWellFormed | src/initialState.ts:71-72 | the starting resources have distinct kinds, the six buildings have distinct kinds and no cost names a kind twice |
| Catalog.InitialBuildingsFacts | src/initialState.ts:13-62 | six buildings, all unowned, all with multiplier 1.2 (> 1), every cost amount positive, one of every building kind |
| Catalog.InitialResourcesZero | src/initialState.ts:71 | every starting amount is 0, and iron is not a starting resource |
| Catalog.NothingAffordableFromZero | src/data.ts:40-44 | a cost whose first entry is positive is unaffordable when no amount is positive |
| Catalog.NothingAffordableAtStart | src/initialState.ts:13-72 | no building is affordable from the starting resources |
| Catalog.IronGatesMiner | src/initialState.ts:38-45 | the iron miner is unaffordable while every iron entry holds less than its 5 iron |
| Catalog.IronGatesLab | src/initialState.ts:56-62 | the laboratory is unaffordable while every iron entry holds less than its 75 iron |
| Catalog.FurnaceOnlyConsumer | src/initialState.ts:13-62 | the furnace's rates are iron +1, ore −1, coal −2, and the only negative rates in the catalog are the furnace's consumptions |
| Catalog.ReachableWellFormed | src/initialState.ts:64-73 | every state reached from the start by any actions is well formed |
| Catalog.OfflineConfigFacts | src/initialState.ts:67-70 | the offline share lies in [0, 1] and the longest catch-up is 3,600,000 ms |
| Utils.ToUpper | src/utils.ts:13 | lower-case ASCII letters move to upper case; every other character is kept |
| Utils.ToUpperFacts | src/utils.ts:13 | upper-casing is idempotent, and it neither makes nor removes '_' or ' ' |
| Utils.Capitalize | src/utils.ts:13 | same length; the first character upper-cased and the rest kept; the empty word stays empty |
| Utils.Split | src/utils.ts:12 | splitting always yields at least one part |
| Utils.Join | src/utils.ts:14 | no contract of its own: `parts.join(sep)`; specified by `Utils.JoinSplit` and `Utils.SplitJoin` |
| Utils.CapitalizeAll | src/utils.ts:13 | the map over the parts: same count, each part capitalized |
| Utils.SplitNoSeparator | src/utils.ts:12 | a string without the separator splits into itself alone |
| Utils.SplitAtFirst | src/utils.ts:12 | splitting at the first separator gives the part before it, followed by the split of the rest |
| Utils.JoinSplit | src/utils.ts:12-14 | joining the parts with the separator restores the input |
| Utils.SplitJoin | src/utils.ts:12-14 | splitting a join of separator-free parts restores the parts |
| Utils.SegmentInInput | src/utils.ts:12 | every character of a segment occurs in the input |
| Utils.SnakeToTitleCase | src/utils.ts:8-15 | no contract of its own: the runtime split–capitalize–join; specified by `Utils.MatchesTypeLevel`, `Utils.TitleCasePointwise`, `Utils.NoUnderscoreLeft`, `Utils.Idempotent` and `Utils.WordsAreSegments` |
| Utils.TitleCaseType | src/utils.ts:3-6 | no contract of its own: the template-literal type, inferring `First` up to the first '_'; specified by `Utils.TypeLevelPointwise` and `Utils.MatchesTypeLevel` |
| Utils.MatchesTypeLevel | src/utils.ts:3-15 | the runtime function equals the type-level `SnakeToTitleCase` on every string |
| Utils.TypeLevelPointwise | src/utils.ts:3-6 | the type-level result has the input's length; each '_' becomes ' ', each segment start is upper-cased, and every other character is kept |
| Utils.TitleCasePointwise | src/utils.ts:11-14 | the same character-by-character description holds for the runtime function |
| Utils.NoUnderscoreLeft | src/utils.ts:11-14 | every '_' becomes ' ', and the output contains no '_' |
| Utils.Idempotent | src/utils.ts:11-14 | applying the function twice gives the same result as applying it once |
| Utils.WordsAreSegments | src/utils.ts:12-14 | with no ' ' in the input, the output's ' '-separated words are the capitalized '_'-separated segments, so there are as many of them |
| Utils.EmptySegment | src/utils.ts:13 | an empty segment stays empty: "a__b" becomes "A  B" |
| Utils.ResearchPoints | src/utils.ts:3-6 | "research_points" becomes "Research Points" |
| Production.Delta | src/App.tsx:14-17 | no contract of its own: the update one rate entry dispatches; specified by `Production.DeltaFormula` |
| Production.RateActions | src/App.tsx:13-18 | no contract of its own: one building's updates, one per rate entry in order; specified by `Production.RateActionsSum` and `Production.TickActionsAt` |
| Production.TickActions | src/App.tsx:12-18 | one tick dispatches exactly one resource update per (building, rate entry) |
| Production.DeltaFormula | src/App.tsx:16 | the delta of a rate entry keeps its kind and has amount `amount × count / tps` |
| Production.TickActionsAt | src/App.tsx:12-18 | rate entry `k` of building `j` is dispatched at position (entries of earlier buildings) + `k`, with delta `rate × count / tps` |
| Production.TickResult | src/App.tsx:11-20 | a tick keeps `tps` and the buildings |
| Production.Update | src/App.tsx:11-20 | the nested loop, dispatching one by one, reaches exactly the state of folding the reducer over the tick's actions |
| Production.DispatchUpdatesFrame | src/App.tsx:14-17 | resource updates alone never change the buildings or `tps` |
| Production.DispatchUpdatesCredit | src/App.tsx:14-17 | resource updates credit the first resource of a kind with the sum of that kind's deltas, and it stays the first of its kind |
| Production.RateActionsSum | src/App.tsx:16 | one building's deltas for a kind, times `tps`, are its rate for that kind times its count |
| Production.TickActionsSum | src/App.tsx:12-18 | a tick's deltas for a kind, times `tps`, are the total per-second yield of that kind |
| Production.TickCredit | src/App.tsx:11-20 | one tick credits an existing kind with its yield divided by `tps` |
| Production.Ticks | src/App.tsx:23 | repeated ticks keep `tps` and the buildings |
| Production.TicksCreditN | src/App.tsx:16 | `n` ticks credit an existing kind with `n` times its per-tick share |
| Production.TicksCredit | src/App.tsx:16-23 | `tps` consecutive ticks credit an existing kind with exactly one second's yield, `rate × count` summed |
| Production.IdleBuildingZeroDeltas | src/App.tsx:16 | a building with count 0 contributes only zero deltas |
| Production.ZeroDeltaEffect | src/state.ts:35-39 | a zero delta changes nothing for a present kind and appends a zero-amount entry for an absent one |
| Production.FurnaceRunsDry | src/App.tsx:16 | consumption is unguarded: one furnace at 20 ticks per second, with no ore or coal, yields iron 0.05, ore −0.05 and coal −0.1 |
| Production.FurnaceYields | src/initialState.ts:53 | one catalog furnace yields iron 1, ore −1 and coal −2 per second |
| Production.DispatchMakesPresent | src/state.ts:31-39 | after any dispatched resource update, its kind is present for good |
| Production.FirstTickAddsIron | src/App.tsx:11-20 | iron is absent at the start, yet after the first tick it is present, because the unowned furnace's zero iron delta is appended |
| Production.DispatchKeepsLengthWhenPresent | src/state.ts:31-37 | updates of kinds already present never grow the resource list |
| Production.GainAction | src/App.tsx:34-38 | no contract of its own: one unit of the resource's kind; specified by `Production.GainAddsOne` |
| Production.BuyAction | src/App.tsx:56-60 | no contract of its own: a purchase of the building's kind; specified by `Production.BuyDisabledIffNoOp` |
| Production.BuyDisabled | src/App.tsx:55 | no contract of its own: the cost is not matched; specified by `Production.BuyDisabledIffNoOp` |
| Production.GainAddsOne | src/App.tsx:33-39 | with unique kinds, pressing the button adds exactly 1 to that resource and changes nothing else |
| Production.BuyDisabledIffNoOp | src/App.tsx:55-61 | with unique building kinds, the buy button is disabled exactly when the purchase would leave the state unchanged |

## Left out

- Floating point: amounts, the 1.2 multiplier and the division by `tps` are JavaScript numbers. The model uses exact reals and makes no rounding claims.
- Production.Update: requires `tps ≠ 0`. The source would divide by zero and produce infinities or NaN, which exact reals cannot represent. The same precondition is on Production.TickResult, Production.Ticks and the lemmas about them. As written, `initialState.ts` gives the state no `tps`, so `1000 / tps` and every delta would be NaN. The model assumes a defined, non-zero `tps`.
- Production.Ticks: models `n` ticks as `n` calls in a row. The `setInterval` timer, `useEffect` and wall-clock scheduling are left out.
- Utils.ToUpper: only ASCII letters are upper-cased. JavaScript's `toUpperCase` is Unicode-aware and can change a string's length. Length preservation and idempotence are stated for this ASCII mapping.
- The timestamps `saveStart` and `lastSave` come from `Date.now()`, a clock, and are left out. The offline share and the longest catch-up time remain only as the constants `Catalog.OfflineMultiplier` and `Catalog.MaxCatchupTime`.
- Saving, loading, importing and offline catch-up are not implemented in the source. `loadState` is imported but not defined, and none of these are modelled.
- Rendering (the JSX of `App.tsx`), `main.tsx` with its DOM mounting and storage calls, `vite.config.ts` and `recipes.ts` are not part of this model.
- `formatResource`, `formatBuilding` and the icon tables are presentation: flooring, locale-dependent formatting and emoji lookups.
- Immer's `produce` is modelled by its contract: the reducer is a function returning a new state. Structural sharing and reference identity are not modelled.
- Reducer.Reduce: the draft mutations (`find` and `+=`, `push`, the `forEach` that scales the cost, `amount++`) are modelled as sequence updates on values, not as in-place updates on a draft. Only `subtractResources` is modelled in place, as a method on an array.
