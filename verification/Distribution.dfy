/** `distribute_txs`: handing the decoded transactions out to the blocks of a batch. */
module Distribution {

  function Sum(sizes: seq<nat>): nat {
    if sizes == [] then 0 else Sum(sizes[..|sizes| - 1]) + sizes[|sizes| - 1]
  }

  function Min(a: int, b: int): int {
    if a < b then a else b
  }

  function Concat<T>(lists: seq<seq<T>>): seq<T> {
    if lists == [] then [] else Concat(lists[..|lists| - 1]) + lists[|lists| - 1]
  }

  /** What is left over for block `i`. */
  function Remaining(available: nat, sizes: seq<nat>, i: nat): nat
    requires i <= |sizes|
  {
    if Sum(sizes[..i]) <= available then available - Sum(sizes[..i]) else 0
  }

  lemma {:induction false} SumGrows(sizes: seq<nat>, i: nat)
    requires i < |sizes|
    ensures Sum(sizes[..i + 1]) == Sum(sizes[..i]) + sizes[i]
  {
    assert sizes[..i + 1][..i] == sizes[..i];
  }

  lemma {:induction false} ConcatGrows<T>(lists: seq<seq<T>>, last: seq<T>)
    ensures Concat(lists + [last]) == Concat(lists) + last
  {
    assert (lists + [last])[..|lists|] == lists;
  }

  /** The transactions from `acc` on that a block of the given size gets. */
  function Portion<T>(data: seq<T>, acc: nat, size: nat): seq<T> {
    if acc + size <= |data| then data[acc..acc + size]
    else if acc < |data| then data[acc..]
    else []
  }

  lemma {:induction false} PortionExtends<T>(data: seq<T>, acc: nat, size: nat)
    ensures data[..Min(acc, |data|)] + Portion(data, acc, size) == data[..Min(acc + size, |data|)]
    ensures |Portion(data, acc, size)| == Min(size, if acc <= |data| then |data| - acc else 0)
  {
  }

  ghost predicate Sized<T>(lists: seq<seq<T>>, available: nat, sizes: seq<nat>)
    requires |lists| <= |sizes|
  {
    forall i :: 0 <= i < |lists| ==> |lists[i]| == Min(sizes[i], Remaining(available, sizes, i))
  }

  lemma {:induction false} SizedGrows<T>(lists: seq<seq<T>>, last: seq<T>, available: nat, sizes: seq<nat>)
    requires |lists| < |sizes| && Sized(lists, available, sizes)
    requires |last| == Min(sizes[|lists|], Remaining(available, sizes, |lists|))
    ensures Sized(lists + [last], available, sizes)
  {
  }

  /**
   One list for every block, with the smaller of its declared size and what remains; together they are
   the first transactions, in order, none lost and none given twice.
   */
  method DistributeTxs<T>(data: seq<T>, sizes: seq<nat>) returns (lists: seq<seq<T>>)
    ensures |lists| == |sizes|
    ensures Sized(lists, |data|, sizes)
    ensures Concat(lists) == data[..Min(Sum(sizes), |data|)]
  {
    lists := [];
    var acc := 0;
    for i := 0 to |sizes|
      invariant |lists| == i && acc == Sum(sizes[..i])
      invariant Sized(lists, |data|, sizes)
      invariant Concat(lists) == data[..Min(acc, |data|)]
    {
      SumGrows(sizes, i);
      var list := Portion(data, acc, sizes[i]);
      ConcatGrows(lists, list);
      PortionExtends(data, acc, sizes[i]);
      SizedGrows(lists, list, |data|, sizes);
      lists := lists + [list];
      acc := acc + sizes[i];
    }
    assert sizes[..|sizes|] == sizes;
  }
}
