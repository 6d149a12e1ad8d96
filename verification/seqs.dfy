/** The array primitives the components use on lists of tags: `filter` with
    `!==`, `includes`, and duplicate-freedom. */
module Seqs {

  /** `xs.filter((y) => y !== x)`: every occurrence of `x` dropped, the rest
      kept in order. */
  function Remove<T(==)>(xs: seq<T>, x: T): (r: seq<T>)
    ensures x !in r
    ensures multiset(r) == multiset(xs)[x := 0]
  {
    if |xs| == 0 then []
    else
      assert xs == [xs[0]] + xs[1..];
      if xs[0] == x then Remove(xs[1..], x) else [xs[0]] + Remove(xs[1..], x)
  }

  /** Removal works piecewise, so the survivors keep their relative order. */
  lemma {:induction false} RemoveAppend<T>(a: seq<T>, b: seq<T>, x: T)
    ensures Remove(a + b, x) == Remove(a, x) + Remove(b, x)
  {
    if |a| > 0 {
      assert (a + b)[1..] == a[1..] + b;
      RemoveAppend(a[1..], b, x);
    } else {
      assert a + b == b;
    }
  }

  /** Removing an element that is absent changes nothing. */
  lemma {:induction false} RemoveAbsent<T>(xs: seq<T>, x: T)
    requires x !in xs
    ensures Remove(xs, x) == xs
  {
    if |xs| > 0 {
      assert xs[1..] + [] == xs[1..];
      assert x !in xs[1..];
      RemoveAbsent(xs[1..], x);
      assert xs == [xs[0]] + xs[1..];
    }
  }

  /** No element occurs twice. */
  predicate NoDups<T(==)>(xs: seq<T>) {
    forall i, j :: 0 <= i < j < |xs| ==> xs[i] != xs[j]
  }

  /** Removing an element keeps a list duplicate-free. */
  lemma {:induction false} RemoveKeepsNoDups<T>(xs: seq<T>, x: T)
    requires NoDups(xs)
    ensures NoDups(Remove(xs, x))
  {
    if |xs| > 0 {
      assert NoDups(xs[1..]) by {
        forall i, j | 0 <= i < j < |xs[1..]| ensures xs[1..][i] != xs[1..][j] {
          assert xs[1..][i] == xs[i + 1] && xs[1..][j] == xs[j + 1];
        }
      }
      RemoveKeepsNoDups(xs[1..], x);
      if xs[0] != x {
        var rest := Remove(xs[1..], x);
        assert xs[0] !in xs[1..];
        assert xs[0] !in rest by {
          assert multiset(xs[1..])[xs[0]] == 0;
          assert multiset(rest)[xs[0]] == 0;
          assert xs[0] !in multiset(rest);
        }
      }
    }
  }

  /** Appending an absent element keeps a list duplicate-free. */
  lemma AppendKeepsNoDups<T>(xs: seq<T>, x: T)
    requires NoDups(xs) && x !in xs
    ensures NoDups(xs + [x])
  {
  }
}
