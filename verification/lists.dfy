/** `Array.prototype.filter` on sequences, with the facts the model needs:
    it keeps exactly the matching elements and keeps them in order. */
module Lists {

  /** The elements of `s` satisfying `p`, in their order in `s`. */
  function Filter<T>(s: seq<T>, p: T -> bool): (r: seq<T>)
    ensures |r| <= |s|
    ensures forall k :: 0 <= k < |r| ==> p(r[k]) && r[k] in s
    ensures forall k :: 0 <= k < |s| && p(s[k]) ==> s[k] in r
  {
    if |s| == 0 then []
    else if p(s[0]) then [s[0]] + Filter(s[1..], p)
    else Filter(s[1..], p)
  }

  /** Filtering commutes with concatenation, so the relative order of the
      kept elements is the order of the input. */
  lemma {:induction false} FilterAppend<T>(a: seq<T>, b: seq<T>, p: T -> bool)
    ensures Filter(a + b, p) == Filter(a, p) + Filter(b, p)
    decreases |a|
  {
    if |a| > 0 {
      assert (a + b)[1..] == a[1..] + b;
      FilterAppend(a[1..], b, p);
    } else {
      assert a + b == b;
    }
  }

  /** Two predicates that agree on every element filter alike. */
  lemma {:induction false} FilterAgree<T>(s: seq<T>, p: T -> bool, q: T -> bool)
    requires forall k :: 0 <= k < |s| ==> p(s[k]) == q(s[k])
    ensures Filter(s, p) == Filter(s, q)
  {
    if |s| > 0 {
      FilterAgree(s[1..], p, q);
    }
  }

  /** The concatenation of `f` applied to each element, in order: what a
      `forEach` that appends `f(x)` to a list builds. */
  function FlatMap<T, U>(s: seq<T>, f: T -> seq<U>): seq<U> {
    if |s| == 0 then [] else f(s[0]) + FlatMap(s[1..], f)
  }

  /** When `f` yields two elements for the elements `p` keeps and none
      for the others, the flat map is the pairs of the kept elements, in
      order. */
  lemma {:induction false} FlatMapPairs<T, U>(s: seq<T>, f: T -> seq<U>, p: T -> bool, k: nat)
    requires forall x :: |f(x)| == if p(x) then 2 else 0
    requires k < |Filter(s, p)|
    ensures |FlatMap(s, f)| == 2 * |Filter(s, p)|
    ensures FlatMap(s, f)[2 * k..2 * k + 2] == f(Filter(s, p)[k])
  {
    var head := f(s[0]);
    var rest := FlatMap(s[1..], f);
    var w := Filter(s[1..], p);
    FlatMapLength(s[1..], f, p);
    if p(s[0]) {
      assert Filter(s, p) == [s[0]] + w;
      if k > 0 {
        FlatMapPairs(s[1..], f, p, k - 1);
        assert (head + rest)[2 * k..2 * k + 2] == rest[2 * (k - 1)..2 * (k - 1) + 2];
      }
    } else {
      FlatMapPairs(s[1..], f, p, k);
    }
  }

  lemma {:induction false} FlatMapLength<T, U>(s: seq<T>, f: T -> seq<U>, p: T -> bool)
    requires forall x :: |f(x)| == if p(x) then 2 else 0
    ensures |FlatMap(s, f)| == 2 * |Filter(s, p)|
  {
    if |s| > 0 {
      FlatMapLength(s[1..], f, p);
    }
  }
}
