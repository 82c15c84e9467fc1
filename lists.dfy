/**
 * The two list operations java.util.List provides that the client code
 * relies on: indexOf (the first equal element) and remove(Object) (take
 * the first equal element out, keep the others in order).
 */
module Lists {
  /** The index of the first element equal to x, or -1 when there is none. */
  function IndexOf<T(==)>(s: seq<T>, x: T): (k: int)
    ensures -1 <= k < |s|
    ensures k >= 0 ==> s[k] == x && forall j :: 0 <= j < k ==> s[j] != x
    ensures k < 0 ==> x !in s
    decreases |s|
  {
    if |s| == 0 then -1
    else if s[0] == x then 0
    else
      var k := IndexOf(s[1..], x);
      if k < 0 then -1 else k + 1
  }

  /** The elements with element k left out, the others in their order. */
  function Without<T>(s: seq<T>, k: int): (r: seq<T>)
    requires 0 <= k < |s|
    ensures |r| == |s| - 1
    ensures forall j :: 0 <= j < |r| ==> r[j] == if j < k then s[j] else s[j + 1]
  {
    s[..k] + s[k + 1..]
  }

  /** Leaving out one element takes exactly that element away from the multiset of elements. */
  lemma WithoutOne<T>(s: seq<T>, k: int)
    requires 0 <= k < |s|
    ensures multiset(Without(s, k)) == multiset(s) - multiset{s[k]}
  {
    assert s == s[..k] + [s[k]] + s[k + 1..];
  }

  /** remove(Object): the first element equal to x is taken out; nothing changes when there is none. */
  function Removed<T(==)>(s: seq<T>, x: T): (r: seq<T>)
    ensures x !in s ==> r == s
    ensures x in s ==> |r| == |s| - 1 && multiset(r) == multiset(s) - multiset{x}
  {
    var k := IndexOf(s, x);
    if k < 0 then s else WithoutOne(s, k); Without(s, k)
  }

  /** No element occurs twice. */
  predicate Distinct<T(==)>(s: seq<T>)
  {
    forall i, j :: 0 <= i < j < |s| ==> s[i] != s[j]
  }

  /** Taking out the one occurrence of an element of a list without repeats leaves it without repeats and without that element. */
  lemma RemovedDistinct<T>(s: seq<T>, x: T)
    requires Distinct(s)
    ensures Distinct(Removed(s, x)) && x !in Removed(s, x)
  {
    if x in s {
      var r := Removed(s, x);
      var k := IndexOf(s, x);
      forall j | 0 <= j < |r| ensures r[j] != x {
        if j >= k {
          assert s[j + 1] != s[k];
        }
      }
    }
  }
}
