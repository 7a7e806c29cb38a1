/**
 * The solver object UnboundedKnapsack: a value table and a selection table,
 * both filled in place by KnapsackUnbounded, and three queries on them.
 */
module Knapsack {
  import opened KnapsackSpec
  import opened Rendering

  /** A query either answers or fails because the capacity is outside the
    * range of the last solve (std::invalid_argument in the source). */
  datatype Result<T> = Ok(value: T) | CapacityOutOfBounds

  /** std::vector::resize on the list of lists: the first n entries are kept,
    * missing entries are added as empty lists. */
  function Resized(lists: seq<seq<int>>, n: nat): (r: seq<seq<int>>)
    ensures |r| == n
    ensures forall c :: 0 <= c < n ==> r[c] == if c < |lists| then lists[c] else []
  {
    if n <= |lists| then lists[..n] else lists + seq(n - |lists|, _ => [])
  }

  /** Resizing lists that are all empty gives lists that are all empty. */
  lemma ResizedKeepsEmpty(lists: seq<seq<int>>, n: nat)
    requires AllEmpty(lists)
    ensures AllEmpty(Resized(lists, n))
  {
  }

  class UnboundedKnapsack {
    /** knapsack[c]: the best value found for capacity c. */
    var knapsack: seq<int>
    /** selectedElements[c]: a list of 1-based item indices for capacity c. */
    var selectedElements: seq<seq<int>>
    /** One more than the last capacity solved for; -1 before any solve. */
    var maximumCapacity: int

    ghost predicate Valid()
      reads this
    {
      |knapsack| == |selectedElements| &&
      ((maximumCapacity == -1 && knapsack == []) || maximumCapacity == |knapsack|)
    }

    constructor ()
      ensures Valid()
      ensures maximumCapacity == -1 && knapsack == [] && selectedElements == []
    {
      knapsack := [];
      selectedElements := [];
      maximumCapacity := -1;
    }

    /** Fills both tables for the capacities 0..W, each item type usable any
      * number of times. The value table is rebuilt from scratch; the lists
      * are only resized, so a capacity no item type fits keeps the list it
      * held before (see Kept), and the witness property is promised for an
      * object whose lists were all empty. W == -1 leaves both tables empty
      * and every query failing. */
    method KnapsackUnbounded(w: seq<int>, v: seq<int>, N: int, W: int)
      requires ValidCatalog(w, v, N) && W >= -1
      modifies this
      ensures Valid()
      ensures maximumCapacity == W + 1 && |knapsack| == W + 1 && |selectedElements| == W + 1
      ensures SolvedBelow(w, v, N, Resized(old(selectedElements), W + 1), knapsack, selectedElements, W + 1)
      ensures AllEmpty(old(selectedElements)) ==> Witnesses(w, v, N, knapsack, selectedElements)
    {
      knapsack := [];
      knapsack := seq(W + 1, _ => 0);
      maximumCapacity := W + 1;
      selectedElements := Resized(selectedElements, W + 1);
      ghost var init := selectedElements;

      for i := 0 to W + 1
        invariant |knapsack| == W + 1 && selectedElements == init && maximumCapacity == W + 1
        invariant forall c :: 0 <= c <= W ==> knapsack[c] == 0
      {
        knapsack := knapsack[i := 0];
      }

      for capacity := 0 to W + 1
        invariant SolvedBelow(w, v, N, init, knapsack, selectedElements, capacity) && UntouchedFrom(init, knapsack, selectedElements, capacity)
        invariant maximumCapacity == W + 1
      {
        FillCapacity(w, v, N, init, capacity);
      }

      if AllEmpty(old(selectedElements)) {
        ResizedKeepsEmpty(old(selectedElements), W + 1);
        WitnessTables(w, v, N, init, knapsack, selectedElements);
      }
    }

    /** One pass of the capacity loop: the inner loop over the item types
      * settles the entry at `capacity`, given that every entry below it is
      * settled and every entry from it on is as initialised. A step inside
      * the solve only: it changes no table length and not maximumCapacity,
      * so it keeps Valid, which the solve re-establishes at its end. */
    method FillCapacity(w: seq<int>, v: seq<int>, N: int, ghost init: seq<seq<int>>, capacity: nat)
      requires ValidCatalog(w, v, N) && capacity < |init|
      requires SolvedBelow(w, v, N, init, knapsack, selectedElements, capacity) && UntouchedFrom(init, knapsack, selectedElements, capacity)
      modifies this
      ensures SolvedBelow(w, v, N, init, knapsack, selectedElements, capacity + 1) && UntouchedFrom(init, knapsack, selectedElements, capacity + 1)
      ensures maximumCapacity == old(maximumCapacity)
    {
      for n := 0 to N
        invariant SolvedBelow(w, v, N, init, knapsack, selectedElements, capacity) && UntouchedFrom(init, knapsack, selectedElements, capacity + 1)
        invariant knapsack[capacity] == MaxValueAfter(w, v, N, capacity, n)
        invariant selectedElements[capacity] == SelectedAfter(w, v, N, init, capacity, n)
        invariant maximumCapacity == old(maximumCapacity)
      {
        if w[n] <= capacity {
          if knapsack[capacity] <= knapsack[capacity - w[n]] + v[n] {
            TakeStep(w, v, N, init, knapsack, selectedElements, capacity, n);
            Take(capacity, capacity - w[n], v[n], n + 1);
          } else {
            SkipStep(w, v, N, init, knapsack, selectedElements, capacity, n);
          }
        } else {
          SkipStep(w, v, N, init, knapsack, selectedElements, capacity, n);
        }
      }
    }

    /** Lines 85-93 of the inner loop: item type `item` (1-based) is taken
      * at `capacity` on top of the best packing of the `rest` capacity:
      * the value is overwritten, and the list is cleared, then gets `item`
      * followed by a copy of the list at `rest`. A step inside the solve
      * only; as it changes no length and not maximumCapacity, it keeps
      * Valid. */
    method Take(capacity: nat, rest: nat, value: int, item: int)
      requires capacity < |knapsack| && capacity < |selectedElements| && rest < capacity
      modifies this
      ensures knapsack == old(knapsack)[capacity := old(knapsack[rest]) + value]
      ensures selectedElements == old(selectedElements)[capacity := [item] + old(selectedElements[rest])]
      ensures maximumCapacity == old(maximumCapacity)
    {
      knapsack := knapsack[capacity := knapsack[rest] + value];
      selectedElements := selectedElements[capacity := []];
      selectedElements := selectedElements[capacity := selectedElements[capacity] + [item]];
      var source := selectedElements[rest];
      ghost var before := selectedElements;
      assert [] + [item] == [item] + source[..0] == [item];
      for j := 0 to |source|
        invariant selectedElements == before[capacity := [item] + source[..j]]
        invariant knapsack == old(knapsack)[capacity := old(knapsack[rest]) + value]
        invariant maximumCapacity == old(maximumCapacity)
      {
        assert selectedElements[capacity] == [item] + source[..j];
        assert [item] + source[..j] + [source[j]] == [item] + source[..j + 1];
        selectedElements := selectedElements[capacity := selectedElements[capacity] + [source[j]]];
      }
      assert source[..|source|] == source;
    }

    /** The best value for `capacity`, or a failure outside 0..W of the last
      * solve (and always before the first one). */
    method GetMaximumValue(capacity: int) returns (r: Result<int>)
      requires Valid()
      ensures r.CapacityOutOfBounds? <==> capacity < 0 || capacity >= maximumCapacity
      ensures r.Ok? ==> r.value == knapsack[capacity]
    {
      if capacity < 0 || capacity >= maximumCapacity {
        return CapacityOutOfBounds;
      }
      return Ok(knapsack[capacity]);
    }

    /** The list of 1-based item indices for `capacity`, with the same bounds
      * check as GetMaximumValue. */
    method GetSelectedElements(capacity: int) returns (r: Result<seq<int>>)
      requires Valid()
      ensures r.CapacityOutOfBounds? <==> capacity < 0 || capacity >= maximumCapacity
      ensures r.Ok? ==> r.value == selectedElements[capacity]
    {
      if capacity < 0 || capacity >= maximumCapacity {
        return CapacityOutOfBounds;
      }
      return Ok(selectedElements[capacity]);
    }

    /** The list for `capacity` written as "[a, b, c]". The source appends
      * each index and ", ", then drops the last two characters, which is
      * undefined for an empty list; it does no bounds check. */
    method SelectedElementsToString(capacity: int) returns (response: string)
      requires 0 <= capacity < |selectedElements| && selectedElements[capacity] != []
      ensures response == Render(selectedElements[capacity])
      ensures ParseList(response) == Some(selectedElements[capacity])
    {
      var list := selectedElements[capacity];
      response := "[";
      for i := 0 to |list|
        invariant response == Accumulated(list, i)
      {
        AccumulatedStep(list, i);
        response := response + Decimal(list[i]);
        response := response + ", ";
      }
      AccumulatedAll(list);
      ghost var full := response;
      response := response[..|response| - 1];
      response := response[..|response| - 1];
      assert response == full[..|full| - 2];
      response := response + "]";
      RenderRoundTrip(list);
    }
  }

  // ---------------------------------------------------------------------
  //  Uses of the object
  // ---------------------------------------------------------------------

  /** Before the first solve every query fails, whatever the capacity. */
  method QueryBeforeSolve(capacity: int) returns (value: Result<int>, selection: Result<seq<int>>)
    ensures value == CapacityOutOfBounds && selection == CapacityOutOfBounds
  {
    var k := new UnboundedKnapsack();
    value := k.GetMaximumValue(capacity);
    selection := k.GetSelectedElements(capacity);
  }

  /** A solve with W == -1 sizes both tables to 0, dropping the earlier
    * lists, and sets maximumCapacity to 0: every query then fails. */
  method SolveForNoCapacity(capacity: int) returns (value: Result<int>, selection: Result<seq<int>>)
    ensures value == CapacityOutOfBounds && selection == CapacityOutOfBounds
  {
    var k := new UnboundedKnapsack();
    k.KnapsackUnbounded([1], [5], 1, 1);
    k.KnapsackUnbounded([1], [5], 1, -1);
    value := k.GetMaximumValue(capacity);
    selection := k.GetSelectedElements(capacity);
  }

  /** Solving twice with the same capacity, where the second catalog fits
    * nothing at capacity 1: the value there is reset to 0, but the list
    * from the first solve is still reported. */
  method ResolveKeepsStaleList() returns (value: Result<int>, selection: Result<seq<int>>)
    ensures value == Ok(0) && selection == Ok([1])
  {
    var k := new UnboundedKnapsack();
    k.KnapsackUnbounded([1], [5], 1, 1);
    assert Resized([], 2) == [[], []];
    assert k.selectedElements[0] == [];
    assert k.selectedElements[1] == [1] + Selected([1], [5], 1, [[], []], 0) == [1];
    assert k.selectedElements == [[], [1]];
    k.KnapsackUnbounded([2], [1], 1, 1);
    assert forall n :: 0 <= n < 1 ==> [2][n] > 1;
    Kept([2], [1], 1, Resized([[], [1]], 2), 1);
    RecurrenceUpper([2], [1], 1, 1);
    value := k.GetMaximumValue(1);
    selection := k.GetSelectedElements(1);
  }

  /** An item type that fits but whose every candidate is negative is never
    * accepted, so the list from before the solve survives. */
  lemma NegativeCandidateKeepsList()
    ensures MaxValue([1], [-3], 1, 2) == 0
    ensures Selected([1], [-3], 1, [[], [], [7]], 2) == [7]
  {
    var init: seq<seq<int>> := [[], [], [7]];
    Kept([1], [-3], 1, init, 0);
    Kept([1], [-3], 1, init, 1);
    Kept([1], [-3], 1, init, 2);
  }

  /** The tables for weights [1, 2, 3], values [10, 15, 40] up to capacity 6,
    * from empty lists. At capacities 4 and 5 item type 3 ties with item
    * type 1 and, coming later, wins. */
  lemma SmallCatalogTables()
    ensures MaxValue([1, 2, 3], [10, 15, 40], 3, 6) == 80
    ensures Selected([1, 2, 3], [10, 15, 40], 3, Resized([], 7), 6) == [3, 3]
  {
    var w, v := [1, 2, 3], [10, 15, 40];
    assert ValidCatalog(w, v, 3);
    assert MaxValueAfter(w, v, 3, 0, 3) == 0;
    assert MaxValueAfter(w, v, 3, 1, 3) == 10;
    assert MaxValueAfter(w, v, 3, 2, 3) == 20;
    assert MaxValueAfter(w, v, 3, 3, 2) == 30;
    assert MaxValueAfter(w, v, 3, 3, 3) == 40;
    assert MaxValueAfter(w, v, 3, 4, 3) == 50;
    assert MaxValueAfter(w, v, 3, 5, 3) == 60;
    assert MaxValueAfter(w, v, 3, 6, 2) == 70;
    assert MaxValueAfter(w, v, 3, 6, 3) == 80;
    var init := Resized([], 7);
    assert SelectedAfter(w, v, 3, init, 0, 3) == [];
    assert SelectedAfter(w, v, 3, init, 3, 3) == [3];
    assert SelectedAfter(w, v, 3, init, 6, 3) == [3, 3];
  }

  /** The text of the list [3, 3]. */
  lemma SmallCatalogText()
    ensures Render([3, 3]) == "[3, 3]"
  {
    assert Decimal(3) == "3";
    assert Items([3]) == "3";
    assert Items([3, 3]) == "3" + ", " + Items([3]);
  }

  /** The small catalog end to end: best value 80 at capacity 6, reached by
    * two of item type 3, rendered "[3, 3]"; capacity 7 is out of range. */
  method SmallCatalog() returns (best: Result<int>, chosen: Result<seq<int>>, shown: string, beyond: Result<int>)
    ensures best == Ok(80) && chosen == Ok([3, 3]) && shown == "[3, 3]"
    ensures beyond == CapacityOutOfBounds
  {
    var k := new UnboundedKnapsack();
    k.KnapsackUnbounded([1, 2, 3], [10, 15, 40], 3, 6);
    SmallCatalogTables();
    assert k.knapsack[6] == 80 && k.selectedElements[6] == [3, 3];
    best := k.GetMaximumValue(6);
    chosen := k.GetSelectedElements(6);
    shown := k.SelectedElementsToString(6);
    SmallCatalogText();
    beyond := k.GetMaximumValue(7);
  }
}
