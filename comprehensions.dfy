/** The two Python idioms the parser and the reconciler are written in:
    the filtering list comprehension `[x for x in s if keep(x)]` and the
    counting generator `sum(1 for x in s if keep(x))`. */
module Comprehensions {

  /** `[x for x in s if keep(x)]`: the elements of `s` that satisfy `keep`,
      nothing else. */
  function Select<T(==, !new)>(s: seq<T>, keep: T -> bool): (r: seq<T>)
    ensures |r| <= |s|
    ensures forall x :: x in r <==> x in s && keep(x)
  {
    if s == [] then []
    else (if keep(s[0]) then [s[0]] else []) + Select(s[1..], keep)
  }

  /** `sum(1 for x in s if keep(x))`. */
  function Count<T>(s: seq<T>, keep: T -> bool): (n: nat)
    ensures n <= |s|
    ensures n == 0 <==> forall i :: 0 <= i < |s| ==> !keep(s[i])
    ensures n == |s| <==> forall i :: 0 <= i < |s| ==> keep(s[i])
  {
    if s == [] then 0
    else (if keep(s[0]) then 1 else 0) + Count(s[1..], keep)
  }

  /** Selection is stable: selecting from a concatenation selects from each
      part and keeps the parts in order. */
  lemma {:induction false} SelectAppend<T(!new)>(a: seq<T>, b: seq<T>, keep: T -> bool)
    ensures Select(a + b, keep) == Select(a, keep) + Select(b, keep)
  {
    if a == [] {
      assert a + b == b;
    } else {
      assert (a + b)[1..] == a[1..] + b;
      SelectAppend(a[1..], b, keep);
    }
  }

  /** When every element passes, selection gives back the input. */
  lemma {:induction false} SelectAll<T(!new)>(s: seq<T>, keep: T -> bool)
    requires forall i :: 0 <= i < |s| ==> keep(s[i])
    ensures Select(s, keep) == s
  {
    if s != [] {
      SelectAll(s[1..], keep);
    }
  }

  /** The selected list is exactly as long as the count of passing elements. */
  lemma {:induction false} SelectLength<T(!new)>(s: seq<T>, keep: T -> bool)
    ensures |Select(s, keep)| == Count(s, keep)
  {
    if s != [] {
      SelectLength(s[1..], keep);
    }
  }

  /** Two counts by exclusive tests add up to at most the length, and to
      exactly the length when every element passes one of the two tests. */
  lemma {:induction false} CountExclusive<T>(s: seq<T>, p: T -> bool, q: T -> bool)
    requires forall i :: 0 <= i < |s| ==> !(p(s[i]) && q(s[i]))
    ensures Count(s, p) + Count(s, q) <= |s|
    ensures (Count(s, p) + Count(s, q) == |s|)
            <==> (forall i :: 0 <= i < |s| ==> p(s[i]) || q(s[i]))
  {
    if s != [] {
      CountExclusive(s[1..], p, q);
      assert forall i :: 1 <= i < |s| ==> s[1..][i - 1] == s[i];
    }
  }
}
