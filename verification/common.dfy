/** Small shared vocabulary: optional values (the source's `null`/`undefined`),
    the first-match search that `Array.prototype.find`/`findIndex` perform,
    and the sum of a numeric field over a roster. */
module Common {

  /** `None` plays the role of JavaScript's `null`/`undefined`. */
  datatype Option<+T> = None | Some(value: T)

  /** Index of the first element of `s` satisfying `p`, or `None` when no
      element does: the lookup behind `find` and `findIndex`. */
  function FirstIndex<T>(s: seq<T>, p: T -> bool): (r: Option<nat>)
    ensures r.Some? ==> r.value < |s| && p(s[r.value])
    ensures r.Some? ==> forall j :: 0 <= j < r.value ==> !p(s[j])
    ensures r.None? <==> forall j :: 0 <= j < |s| ==> !p(s[j])
  {
    if |s| == 0 then None
    else if p(s[0]) then Some(0)
    else match FirstIndex(s[1..], p)
      case None => None
      case Some(i) => Some(i + 1)
  }

  /** Sum of `f` over the elements of `s`. */
  function SumOf<T>(s: seq<T>, f: T -> int): int
  {
    if |s| == 0 then 0 else f(s[0]) + SumOf(s[1..], f)
  }

  /** Replacing one element changes the sum by exactly the difference of
      the two values of `f`. */
  lemma {:induction false} SumOfUpdate<T>(s: seq<T>, f: T -> int, i: nat, x: T)
    requires i < |s|
    ensures SumOf(s[i := x], f) == SumOf(s, f) - f(s[i]) + f(x)
    decreases |s|
  {
    if i == 0 {
      assert s[i := x][1..] == s[1..];
    } else {
      assert s[i := x][1..] == s[1..][i - 1 := x];
      SumOfUpdate(s[1..], f, i - 1, x);
    }
  }

  /** Appending an element adds its value of `f` to the sum. */
  lemma {:induction false} SumOfAppend<T>(s: seq<T>, f: T -> int, x: T)
    ensures SumOf(s + [x], f) == SumOf(s, f) + f(x)
    decreases |s|
  {
    if |s| == 0 {
      assert s + [x] == [x];
    } else {
      assert (s + [x])[1..] == s[1..] + [x];
      SumOfAppend(s[1..], f, x);
    }
  }
}
