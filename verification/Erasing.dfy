/** Lists of pointers or client ids without repetitions, and erasing the first occurrence from one. */
module Erasing {

  ghost predicate Distinct(q: seq<int>) {
    forall i, j :: 0 <= i < j < |q| ==> q[i] != q[j]
  }

  /** The list without the first occurrence of x. */
  function Without(list: seq<int>, x: int): seq<int> {
    if list == [] then []
    else if list[0] == x then list[1..]
    else [list[0]] + Without(list[1..], x)
  }

  lemma {:induction false} WithoutFirst(list: seq<int>, x: int, i: nat)
    requires i < |list| && list[i] == x && x !in list[..i]
    ensures Without(list, x) == list[..i] + list[i + 1..]
  {
    if i > 0 {
      assert list[1..][..i - 1] == list[..i][1..];
      assert list[0] in list[..i];
      WithoutFirst(list[1..], x, i - 1);
      assert list[..i] == [list[0]] + list[1..][..i - 1];
    }
  }

  lemma WithoutAt(list: seq<int>, i: nat)
    requires i < |list| && Distinct(list)
    ensures Without(list, list[i]) == list[..i] + list[i + 1..]
  {
    WithoutFirst(list, list[i], i);
  }

  lemma {:induction false} WithoutAbsent(list: seq<int>, x: int)
    requires x !in list
    ensures Without(list, x) == list
  {
    if list != [] {
      WithoutAbsent(list[1..], x);
    }
  }

  lemma {:induction false} WithoutAppended(list: seq<int>, x: int)
    requires x !in list
    ensures Without(list + [x], x) == list
  {
    if list != [] {
      assert (list + [x])[1..] == list[1..] + [x];
      WithoutAppended(list[1..], x);
    }
  }

  lemma {:induction false} WithoutDropsOne(list: seq<int>, x: int)
    requires Distinct(list)
    ensures Distinct(Without(list, x))
    ensures forall y :: y in Without(list, x) <==> y in list && y != x
  {
    if list != [] {
      var rest := list[1..];
      assert forall y :: y in list <==> y == list[0] || y in rest;
      assert forall i :: 0 <= i < |rest| ==> rest[i] == list[i + 1];
      if list[0] != x {
        WithoutDropsOne(rest, x);
        var w := Without(rest, x);
        assert forall i :: 0 <= i < |w| ==> w[i] in w;
        assert list[0] !in rest;
      }
    }
  }

  /** The erasing loop of RemovePlayer and of the unregistration of a map. */
  method EraseFirst(list: seq<int>, x: int) returns (r: seq<int>)
    ensures r == Without(list, x)
  {
    for i := 0 to |list|
      invariant x !in list[..i]
    {
      if list[i] == x {
        WithoutFirst(list, x, i);
        return list[..i] + list[i + 1..];
      }
    }
    WithoutAbsent(list, x);
    return list;
  }
}
