# Unbounded knapsack solver

This is a model of the C++ class `UnboundedKnapsack` in `main.cpp`. The
class solves the unbounded knapsack problem, where each item type may be
taken any number of times. For every capacity from 0 to W it keeps two
tables:

- `knapsack[c]`: the best total value within weight `c`.
- `selectedElements[c]`: a list of 1-based item indices that reaches that value.

It answers bounds-checked queries on the tables and renders a list as
`"[a, b, c]"`.

The model has three modules:

- **`KnapsackSpec`** (`knapsack_spec.dfy`) defines, as recursive functions
  of the catalog, what the solver's nested loops compute:
  - `MaxValue` and `MaxValueAfter` give the value table.
  - `Selected` and `SelectedAfter` give the selection table.

  The inner loop updates on a non-strict `<=` comparison, so ties go to
  the item type examined later. The selection also depends on the lists
  the object held before the solve. The module proves:
  - the recurrence, in both directions;
  - that a list from a fresh object is a witness of its value;
  - optimality over every multiset of item types that fits;
  - monotonicity in the capacity;
  - the tie-break rule;
  - that a capacity no item type is accepted at keeps its earlier list;
  - that solving again with the same inputs leaves the lists unchanged.
- **`Rendering`** (`rendering.dfy`) defines the text form of a list and a
  reader for it, and proves that rendering then reading gives the list back.
- **`Knapsack`** (`unbounded_knapsack.dfy`) defines the class with the
  fields `knapsack`, `selectedElements` and `maximumCapacity`. The solve is
  an imperative method with the source's nested loops, proved against the
  functions of `KnapsackSpec`. The two getters return a `Result` in place
  of throwing. The rendering method is a loop, followed by the two
  `pop_back` calls and the closing bracket. The module also has a few
  small uses of the object, with the outcomes they prove.

Two behaviours of the code are easy to miss, and the model keeps both:

- **Re-solving clears only the value table.** `knapsack.clear()`
  (main.cpp:65) empties the value table, but the selection table is only
  resized (main.cpp:71). A capacity at which no item type is accepted is
  never updated, so it keeps the list of the earlier solve. That happens
  when no item type fits, and also when every fitting candidate is
  negative.
  `KnapsackUnbounded` states its result with `Resized(old(selectedElements), W + 1)`
  as the starting lists, and `ResolveKeepsStaleList` exhibits the stale
  list.
- **An empty list cannot be rendered.** When the list is empty, the first
  `pop_back` (main.cpp:155) turns `"["` into `""` and the second
  (main.cpp:156) runs on the empty string, which is undefined behaviour. `SelectedElementsToString` therefore requires a
  non-empty list.

## Model

| member | source | states |
|---|---|---|
| Knapsack.UnboundedKnapsack.constructor | main.cpp:35-38 | A new object has `maximumCapacity == -1` and both tables empty, so it satisfies `Valid`. |
| Knapsack.UnboundedKnapsack.KnapsackUnbounded | main.cpp:62-100 | After solving for capacity W (W >= -1), `maximumCapacity == W + 1` and both tables have W + 1 entries. Every entry c equals `MaxValue(c)`, and every list equals `Selected(c)` computed from the earlier lists resized to W + 1. When every earlier list was empty (`AllEmpty`), every list names catalog items, its values add up to `knapsack[c]` and its weights to at most c. |
| Knapsack.UnboundedKnapsack.FillCapacity | main.cpp:81-96 | One pass of the capacity loop: if every entry below `capacity` is settled and every entry from it on is as initialised, the inner loop settles the entry at `capacity` to `MaxValue` and `Selected`, and leaves the others as they were. |
| Knapsack.UnboundedKnapsack.Take | main.cpp:84-93 | Taking item `item` at `capacity` overwrites `knapsack[capacity]` with `knapsack[rest] + value`. It replaces the list at `capacity` with `[item]` followed by a copy of the list at `rest`. Nothing else changes. |
| Knapsack.Resized | main.cpp:71 | `std::vector::resize`: the result has n entries, the first ones are kept, and the added entries are empty lists. |
| Knapsack.ResizedKeepsEmpty | main.cpp:71 | Helper: resizing lists that are all empty leaves lists that are all empty. |
| Knapsack.UnboundedKnapsack.GetMaximumValue | main.cpp:110-116 | Fails exactly when the capacity is negative or at least `maximumCapacity`, and otherwise returns `knapsack[capacity]`. |
| Knapsack.UnboundedKnapsack.GetSelectedElements | main.cpp:127-133 | Fails exactly when the capacity is negative or at least `maximumCapacity`, and otherwise returns `selectedElements[capacity]`. |
| Knapsack.UnboundedKnapsack.SelectedElementsToString | main.cpp:145-161 | The text is `"[" + the indices joined by ", " + "]"`, and reading it back gives the list at `capacity`. |
| Knapsack.QueryBeforeSolve | main.cpp:35-38 | Before the first solve both getters fail, for every capacity. |
| Knapsack.SolveForNoCapacity | main.cpp:65-71 | After a solve with W == -1 both tables are empty and `maximumCapacity` is 0, so both getters fail for every capacity. |
| Knapsack.ResolveKeepsStaleList | main.cpp:65-71 | Solve weights [1], values [5] at capacity 1, then re-solve weights [2], values [1]. The value at capacity 1 is then 0, but the list still reads `[1]`. |
| Knapsack.NegativeCandidateKeepsList | main.cpp:82-93 | With weight [1] and value [-3], the item fits at capacity 2 but its candidate is negative, so the value there is 0 and the earlier list `[7]` survives the solve. |
| Knapsack.SmallCatalogTables | main.cpp:79-97 | For weights [1, 2, 3], values [10, 15, 40] and capacity 6, the best value is 80 and the list is `[3, 3]`. |
| Knapsack.SmallCatalogText | main.cpp:147-160 | The list `[3, 3]` renders as `"[3, 3]"`. |
| Knapsack.SmallCatalog | main.cpp:110-161 | The same catalog through the object: value 80, list `[3, 3]`, text `"[3, 3]"`, and capacity 7 is out of bounds. |
| KnapsackSpec.MaxValue | main.cpp:79-97 | `knapsack[c]` once the solve is over: the value after the inner loop has examined all N item types. It is never negative. |
| KnapsackSpec.MaxValueAfter | main.cpp:81-85 | `knapsack[c]` after the inner loop has examined the item types 0..k-1. Item type n replaces the value when it fits and the value is at most `knapsack[c - w[n]] + v[n]`. It is never negative. |
| KnapsackSpec.Selected | main.cpp:79-97 | `selectedElements[c]` once the solve is over, given the lists held before it. It is either the earlier list or starts with a catalog item. |
| KnapsackSpec.SelectedAfter | main.cpp:81-93 | `selectedElements[c]` after the inner loop has examined the item types 0..k-1. An accepted item type n makes it `[n + 1]` followed by the list at `c - w[n]`. It is either the earlier list or starts with an item among the first k. |
| KnapsackSpec.TakeStep | main.cpp:82-93 | An inner-loop pass that accepts item type n changes only the entry at `capacity`, to `MaxValueAfter` and `SelectedAfter` at n + 1, and keeps the entries below settled and those above untouched. |
| KnapsackSpec.SkipStep | main.cpp:82-84 | An inner-loop pass that does not accept item type n leaves the entry at `capacity` equal to `MaxValueAfter` and `SelectedAfter` at n + 1. |
| KnapsackSpec.MaxValueAfterGrows | main.cpp:81-85 | Over the item types of the inner loop, the running value never decreases and is never negative. |
| KnapsackSpec.RecurrenceLower | main.cpp:79-85 | For every item type n that fits, `knapsack[c] >= knapsack[c - w[n]] + v[n]`, and `knapsack[c] >= 0`. |
| KnapsackSpec.RecurrenceUpperAfter | main.cpp:79-85 | After the first k item types, the running value is 0 if none of them fit. In every case it is 0 or `knapsack[c - w[n]] + v[n]` for some n among them that fits. |
| KnapsackSpec.RecurrenceUpper | main.cpp:73-85 | `knapsack[c]` is 0 when no item type fits, and otherwise 0 or `knapsack[c - w[n]] + v[n]` for some item type n that fits. With values that are not negative, it is always the latter when some item type fits. Together with RecurrenceLower this is `knapsack[c] = max(0, max over fitting n of knapsack[c - w[n]] + v[n])`. |
| KnapsackSpec.TotalWeightAtLeastLength | main.cpp:82 | Helper for Optimal: a list of catalog items weighs at least its length, since every weight is at least 1. |
| KnapsackSpec.WitnessAfter | main.cpp:84-93 | From empty lists, the running list after k item types names catalog items, its values add up to the running value and its weights to at most c. |
| KnapsackSpec.Witness | main.cpp:84-93 | From empty lists, the list at c names catalog items, its values add up to `knapsack[c]` and its weights to at most c. |
| KnapsackSpec.WitnessTables | main.cpp:84-93 | Tables solved from empty lists pair each value with a list that reaches it. |
| KnapsackSpec.Optimal | main.cpp:53-54 | No multiset of item types with total weight at most c has a total value above `knapsack[c]`. |
| KnapsackSpec.MaxValueIsOptimum | main.cpp:13-16 | `knapsack[c]` is the maximum value within capacity c: some fitting multiset reaches it and none exceeds it. |
| KnapsackSpec.Monotone | main.cpp:13-16 | A larger capacity never has a smaller best value. |
| KnapsackSpec.TieBreakAfter | main.cpp:84-93 | Once the last item type n that reaches the best value has been examined, the running value is the best value and the running list is `[n + 1]` followed by the list at `c - w[n]`. |
| KnapsackSpec.TieBreak | main.cpp:84-93 | Ties go to the later item type: when n is the last fitting item type with `knapsack[c - w[n]] + v[n] == knapsack[c]`, the list at c is `[n + 1]` followed by the list at `c - w[n]`. |
| KnapsackSpec.KeptAfter | main.cpp:82-88 | When every item type that fits c has a negative candidate (vacuously, when none fits), the running value stays 0 and the running list at c is the one it held before the solve. |
| KnapsackSpec.Kept | main.cpp:71-88 | A capacity at which no item type is ever accepted (none fits, or every fitting candidate `knapsack[c - w[n]] + v[n]` is negative) keeps value 0 and the list the object held before the solve. |
| KnapsackSpec.SelectedAfterAgree | main.cpp:79-93 | Two solves whose lists agree below c produce the same running list at c, unless each keeps its own earlier entry. |
| KnapsackSpec.ResolveIdempotent | main.cpp:62-100 | Solving again with the same inputs leaves every list as the first solve left it. |
| KnapsackSpec.SelectionTable | main.cpp:71-93 | Helper for ResolveIdempotent: the lists after a solve, one per capacity of the starting table. |
| Rendering.Decimal | main.cpp:150 | `std::to_string` of an int: a non-empty numeral that starts with '-' exactly when the int is negative. |
| Rendering.Items | main.cpp:149-156 | The indices joined by ", " with no separator at the end. The text is empty exactly when the list is. |
| Rendering.Render | main.cpp:147-160 | The format `"[" + items + "]"`: it starts with '[', ends with ']', and is `"[]"` exactly for the empty list. |
| Rendering.Accumulated | main.cpp:147-152 | The text built after the first i elements: it starts with '[' and, once an element has been appended, ends with ", ". |
| Rendering.NatDecimalRoundTrip | main.cpp:150 | The decimal form of a natural number holds only digits and reads back as that number. |
| Rendering.DecimalRoundTrip | main.cpp:150 | The `std::to_string` form of an int is non-empty, holds only digits after an optional leading '-', and reads back as that int. |
| Rendering.ItemsRoundTrip | main.cpp:149-156 | Indices joined by ", " read back as the same list. |
| Rendering.RenderRoundTrip | main.cpp:147-160 | `"[" + items + "]"` reads back as the same list. |
| Rendering.ItemsSnoc | main.cpp:149-152 | Appending one element to a non-empty list adds ", " and that element's digits at the end of the joined text. |
| Rendering.AccumulatedStep | main.cpp:149-152 | Each loop step appends the element's digits and ", " to the text built so far. |
| Rendering.AccumulatedAll | main.cpp:154-158 | For a non-empty list, dropping the final two characters and appending "]" gives the rendering. |

## Left out

- `main()` and its demo data, the console output and `system("pause")` are I/O around the class and are not modelled.
- The commented-out CSV reading code is not modelled.
- The destructor, which calls `delete this`, is not modelled: Dafny has no manual deallocation.
- Knapsack.UnboundedKnapsack.KnapsackUnbounded: returns nothing, where the source returns `this` for chained calls.
- Knapsack.UnboundedKnapsack.KnapsackUnbounded: requires every weight to be at least 1 and N no larger than the catalog. A too-large N or a negative weight reads out of bounds, and a zero weight with a value that is not negative makes the source copy a list into itself while it grows; those are undefined behaviour in C++. A zero weight with a negative value is well defined in the source (that item type is never accepted), but the model excludes every zero weight because `MaxValue(c - 0)` would recurse on itself.
- Knapsack.UnboundedKnapsack.KnapsackUnbounded: requires N >= 0. With a negative N the source's inner loop runs zero times, exactly as with N == 0, which the model covers.
- Knapsack.UnboundedKnapsack.KnapsackUnbounded: requires W >= -1. With W < -1 the source clears the value table and then `resize` throws `std::length_error`, leaving `maximumCapacity` as it was; exceptions are not modelled. W == -1 is modelled (see SolveForNoCapacity), but only for catalogs that satisfy `ValidCatalog`, although with W == -1 the source's loops never run and any catalog is harmless.
- KnapsackSpec.RecurrenceUpper: values may be negative everywhere in the model, but the exact upper recurrence (some fitting item type attains `knapsack[c]`) is promised only for values that are not negative; with every candidate negative the source leaves the value at 0.
- Knapsack.UnboundedKnapsack.KnapsackUnbounded: the witness property is promised only when all lists were empty before the solve. Stale lists from an earlier solve are carried into new lists, which the source does.
- Knapsack.UnboundedKnapsack.GetSelectedElements: returns a copy of the list. The source returns a reference into the object, so a caller's later changes to that list are not modelled.
- Knapsack.UnboundedKnapsack.SelectedElementsToString: requires a capacity within the table and a non-empty list. The source does no bounds check, and for an empty list the first `pop_back` turns `"["` into `""` and the second, on the empty string, is undefined behaviour.
- Integers are unbounded. The 32-bit `int` overflow of `W + 1`, of value sums and of the item index `n + 1` is not modelled.
- `std::invalid_argument` is modelled as the `CapacityOutOfBounds` result, not as an exception.
