/** Sorting in place by a key. Which of several elements with the same key comes first is not
    said, as the sort the programs use is not stable. */
module Sorting {

  method LeastFrom<T>(a: array<T>, key: T -> int, i: nat) returns (least: nat)
    requires i < a.Length
    ensures i <= least < a.Length && forall q | i <= q < a.Length :: key(a[least]) <= key(a[q])
  {
    least := i;
    for j := i to a.Length
      invariant i <= least < a.Length
      invariant forall q | i <= q < j :: key(a[least]) <= key(a[q])
    {
      if key(a[j]) < key(a[least]) { least := j; }
    }
  }

  method Swap<T>(a: array<T>, i: nat, j: nat)
    requires i <= j < a.Length
    modifies a
    ensures a[..] == old(a[..])[i := old(a[j])][j := old(a[i])]
    ensures multiset(a[..]) == multiset(old(a[..]))
  {
    a[i], a[j] := a[j], a[i];
  }

  method SortBy<T>(a: array<T>, key: T -> int)
    modifies a
    ensures multiset(a[..]) == multiset(old(a[..]))
    ensures forall i, j | 0 <= i < j < a.Length :: key(a[i]) <= key(a[j])
  {
    for i := 0 to a.Length
      invariant multiset(a[..]) == multiset(old(a[..]))
      invariant forall p, q | 0 <= p < q < a.Length && p < i :: key(a[p]) <= key(a[q])
    {
      var least := LeastFrom(a, key, i);
      ghost var before := a[..];
      Swap(a, i, least);
      assert forall p | 0 <= p < a.Length :: a[p] == before[if p == i then least else if p == least then i else p];
    }
  }
}
