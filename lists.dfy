/** The parts of `java.util.List` the handlers rely on: `indexOf` and `remove(Object)`. */
module Lists {

  /** `List.indexOf`: the index of the first element equal to `x`, or -1 when there is none. */
  function IndexOf<T(==)>(xs: seq<T>, x: T): (i: int)
    ensures -1 <= i < |xs|
    ensures i == -1 <==> x !in xs
    ensures 0 <= i ==> xs[i] == x && x !in xs[..i]
  {
    if |xs| == 0 then -1
    else if xs[0] == x then 0
    else
      var j := IndexOf(xs[1..], x);
      assert xs[1..][..if j < 0 then 0 else j] == xs[1..if j < 0 then 1 else j + 1];
      if j < 0 then -1 else j + 1
  }

  /** `List.remove(Object)`: drops the first element equal to `x`; the list is unchanged when there is none. */
  function RemoveFirst<T(==)>(xs: seq<T>, x: T): (r: seq<T>)
  {
    var i := IndexOf(xs, x);
    if i < 0 then xs else xs[..i] + xs[i + 1..]
  }

  /** Removing the first occurrence takes out exactly one element, the one at the first index of `x`,
      leaves the elements before and after it in order, and changes nothing when `x` is absent. */
  lemma RemoveFirstSpec<T>(xs: seq<T>, x: T)
    ensures x !in xs ==> RemoveFirst(xs, x) == xs
    ensures x in xs ==> |RemoveFirst(xs, x)| == |xs| - 1
    ensures x in xs ==>
              exists i :: 0 <= i < |xs| && xs[i] == x && x !in xs[..i] && RemoveFirst(xs, x) == xs[..i] + xs[i + 1..]
    ensures multiset(RemoveFirst(xs, x)) == multiset(xs) - multiset{x}
  {
    var i := IndexOf(xs, x);
    if 0 <= i {
      var before, after := xs[..i], xs[i + 1..];
      assert xs == before + [x] + after;
      assert multiset(xs) == multiset(before) + multiset{x} + multiset(after);
      assert RemoveFirst(xs, x) == before + after;
    }
  }
}
