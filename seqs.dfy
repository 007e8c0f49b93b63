/** Generic list operations that the handlers use through `Array.prototype.filter`,
    `includes` and spread-append: an order-preserving filter and the
    "remove if present, else append" selection toggle. */
module Seqs {

  /** `s.filter(keep)`: the elements of `s` that satisfy `keep`, in their original order. */
  function Filter<T>(s: seq<T>, keep: T -> bool): (r: seq<T>)
    ensures |r| <= |s|
    ensures forall x | x in r :: x in s && keep(x)
    ensures forall x | x in s && keep(x) :: x in r
  {
    if s == [] then []
    else (if keep(s[0]) then [s[0]] else []) + Filter(s[1..], keep)
  }

  /** Filtering a concatenation filters each part and keeps them in order. */
  lemma {:induction false} FilterAppend<T>(a: seq<T>, b: seq<T>, keep: T -> bool)
    ensures Filter(a + b, keep) == Filter(a, keep) + Filter(b, keep)
  {
    if a == [] {
      assert a + b == b;
    } else {
      assert (a + b)[1..] == a[1..] + b;
      FilterAppend(a[1..], b, keep);
    }
  }

  /** Filtering keeps every occurrence of a passing element and none of a failing one. */
  lemma {:induction false} FilterCounts<T>(s: seq<T>, keep: T -> bool)
    ensures forall x :: multiset(Filter(s, keep))[x] == if keep(x) then multiset(s)[x] else 0
  {
    if s != [] {
      FilterCounts(s[1..], keep);
      assert s == [s[0]] + s[1..];
      assert multiset(s) == multiset([s[0]]) + multiset(s[1..]);
    }
  }

  /** A filter that every element passes returns the sequence itself. */
  lemma {:induction false} FilterKeepsAll<T>(s: seq<T>, keep: T -> bool)
    requires forall x :: x in s ==> keep(x)
    ensures Filter(s, keep) == s
  {
    if s != [] {
      FilterKeepsAll(s[1..], keep);
    }
  }

  /** Two tests that agree on every element of `s` filter it the same way. */
  lemma {:induction false} FilterSameTest<T>(s: seq<T>, f: T -> bool, g: T -> bool)
    requires forall x | x in s :: f(x) == g(x)
    ensures Filter(s, f) == Filter(s, g)
  {
    if s != [] {
      FilterSameTest(s[1..], f, g);
    }
  }

  /** `s.filter(y => y !== x)`. */
  function Without<T(==)>(s: seq<T>, x: T): (r: seq<T>)
    ensures x !in r
    ensures forall y | y in r :: y in s
    ensures forall y | y in s && y != x :: y in r
  {
    Filter(s, y => y != x)
  }

  /** Removing an element that is absent changes nothing. */
  lemma WithoutAbsent<T>(s: seq<T>, x: T)
    requires x !in s
    ensures Without(s, x) == s
  {
    FilterKeepsAll(s, y => y != x);
  }

  /** `prev.includes(x) ? prev.filter(p => p !== x) : [...prev, x]`. */
  function Toggle<T(==)>(s: seq<T>, x: T): (r: seq<T>)
    ensures x in r <==> x !in s
    ensures forall y | y in s && y != x :: y in r
    ensures forall y | y in r && y != x :: y in s
  {
    if x in s then Without(s, x) else s + [x]
  }

  /** Toggling flips the membership of `x` and no other element's. */
  lemma ToggleMembership<T>(s: seq<T>, x: T)
    ensures x in Toggle(s, x) <==> x !in s
    ensures forall y :: y != x ==> (y in Toggle(s, x) <==> y in s)
  {
  }

  /** Toggling a present element removes every occurrence and keeps the rest in order;
      toggling an absent one appends it after the unchanged selection. */
  lemma ToggleShape<T>(s: seq<T>, x: T)
    ensures x in s ==> Toggle(s, x) == Without(s, x) && x !in Toggle(s, x)
    ensures x !in s ==> |Toggle(s, x)| == |s| + 1 && Toggle(s, x)[..|s|] == s && Toggle(s, x)[|s|] == x
  {
  }

  /** Whatever the toggle does, the other elements keep their relative order. */
  lemma ToggleKeepsOthersInOrder<T>(s: seq<T>, x: T)
    ensures Without(Toggle(s, x), x) == Without(s, x)
  {
    if x in s {
      FilterKeepsAll(Without(s, x), y => y != x);
    } else {
      FilterAppend(s, [x], y => y != x);
      assert Filter([x], y => y != x) == [];
    }
  }

  /** Toggling twice restores the membership; starting from an absent element it restores
      the sequence exactly, and starting from a present one it moves `x` to the end. */
  lemma ToggleTwice<T>(s: seq<T>, x: T)
    ensures forall y :: y in Toggle(Toggle(s, x), x) <==> y in s
    ensures x !in s ==> Toggle(Toggle(s, x), x) == s
    ensures x in s ==> Toggle(Toggle(s, x), x) == Without(s, x) + [x]
  {
    ToggleMembership(s, x);
    ToggleMembership(Toggle(s, x), x);
    if x !in s {
      ToggleKeepsOthersInOrder(s, x);
      WithoutAbsent(s, x);
    }
  }
}
