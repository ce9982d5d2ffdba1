/** Choosing among weighted items: the weights are summed up in order, and a number drawn
    below the total chooses the first item whose sum exceeds it. Sums are exact. */
module WeightedChoice {
  import opened Wrappers
  import Sorting

  datatype Item<T> = Item(item: T, weight: nat)

  /** The sum of the first `k` weights. */
  function Sum<T>(items: seq<Item<T>>, k: nat): nat
    requires k <= |items|
    decreases k
  {
    if k == 0 then 0 else Sum(items, k - 1) + items[k - 1].weight
  }

  lemma {:induction false} SumMonotone<T>(items: seq<Item<T>>, i: nat, k: nat)
    requires i <= k <= |items|
    ensures Sum(items, i) <= Sum(items, k)
    decreases k
  {
    if i < k { SumMonotone(items, i, k - 1); }
  }

  /** A draw chooses item `i`: the sum exceeds it there for the first time. */
  predicate Chooses<T>(items: seq<Item<T>>, r: nat, i: nat) {
    i < |items| && Sum(items, i) <= r < Sum(items, i + 1)
  }

  lemma ChoosesOnce<T>(items: seq<Item<T>>, r: nat, i: nat, j: nat)
    requires Chooses(items, r, i) && Chooses(items, r, j)
    ensures i == j
  {
    if i < j { SumMonotone(items, i + 1, j); }
    if j < i { SumMonotone(items, j + 1, i); }
  }

  /** The numbers from `lo` below `hi`. */
  function Range(lo: nat, hi: nat): (s: set<nat>)
    requires lo <= hi
    ensures forall r :: r in s <==> lo <= r < hi
    ensures |s| == hi - lo
    decreases hi
  {
    if lo == hi then {} else Range(lo, hi - 1) + {hi - 1}
  }

  /** The draws that choose item `i`. */
  function Draws<T>(items: seq<Item<T>>, i: nat): set<nat> {
    set r | r in Range(0, Sum(items, |items|)) && Chooses(items, r, i)
  }

  /** Of the draws below the total, exactly as many choose an item as its weight says; one
      without weight is never chosen. */
  lemma DrawsPerItem<T>(items: seq<Item<T>>, i: nat)
    requires i < |items|
    ensures |Draws(items, i)| == items[i].weight
  {
    SumMonotone(items, i + 1, |items|);
    assert Draws(items, i) == Range(Sum(items, i), Sum(items, i + 1));
  }

  class WeightSlice<T> {
    const data: array<Item<T>>
    const totals: array<nat>

    ghost predicate Valid()
      reads data, totals
    {
      && totals.Length == data.Length > 0
      && forall k | 0 <= k < totals.Length :: totals[k] == Sum(data[..], k + 1)
    }

    /** The items are sorted where they are, and kept. */
    constructor (items: array<Item<T>>)
      requires items.Length > 0
      modifies items
      ensures Valid() && data == items && fresh(totals)
      ensures multiset(items[..]) == multiset(old(items[..]))
      ensures forall i, j | 0 <= i < j < items.Length :: items[i].weight <= items[j].weight
    {
      Sorting.SortBy(items, (x: Item<T>) => x.weight);
      var sums := CumulativeSums(items);
      data, totals := items, sums;
    }

    static method CumulativeSums(items: array<Item<T>>) returns (sums: array<nat>)
      requires items.Length > 0
      ensures fresh(sums) && sums.Length == items.Length
      ensures forall k | 0 <= k < sums.Length :: sums[k] == Sum(items[..], k + 1)
    {
      sums := new nat[items.Length];
      var total := 0;
      for k := 0 to items.Length
        invariant total == Sum(items[..], k)
        invariant forall j | 0 <= j < k :: sums[j] == Sum(items[..], j + 1)
      {
        total := total + items[k].weight;
        sums[k] := total;
      }
    }

    /** The item for a draw; without any weight nothing can be drawn. */
    method Choose(r: nat) returns (i: nat, item: T)
      requires Valid() && r < Sum(data[..], data.Length)
      ensures Chooses(data[..], r, i) && item == data[i].item
    {
      var lo, hi := 0, totals.Length;
      while lo < hi
        invariant 0 <= lo <= hi <= totals.Length
        invariant lo > 0 ==> totals[lo - 1] <= r
        invariant hi < totals.Length ==> totals[hi] > r
      {
        var h := (lo + hi) / 2;
        if totals[h] > r {
          hi := h;
        } else {
          lo := h + 1;
        }
      }
      assert totals[totals.Length - 1] == Sum(data[..], data.Length);
      i, item := lo, data[lo].item;
    }
  }

  /** There is nothing to choose from without items. */
  method NewWeightSlice<T>(items: array<Item<T>>) returns (r: Option<WeightSlice<T>>)
    modifies items
    ensures r.None? <==> items.Length == 0
    ensures r.Some? ==> r.value.Valid() && r.value.data == items
    ensures multiset(items[..]) == multiset(old(items[..]))
    ensures forall i, j | 0 <= i < j < items.Length :: items[i].weight <= items[j].weight
  {
    if items.Length == 0 { return None; }
    var slice := new WeightSlice(items);
    return Some(slice);
  }
}
