/** Python's `sorted`: a stable sort by a total preorder, with strings compared by code point.
    - the string order is a total order;
    - the result is sorted and holds the same elements as often;
    - under an antisymmetric order it is the only such list, so that lists with the same elements sort alike, whatever
      their order (as the feature fingerprint and the page registry need). */
module Sorting {

  predicate StringLe(a: string, b: string)
    decreases |a|
  {
    a == "" || (b != "" && (a[0] < b[0] || (a[0] == b[0] && StringLe(a[1..], b[1..]))))
  }

  lemma {:induction false} StringLeTotal(a: string, b: string)
    ensures StringLe(a, b) || StringLe(b, a)
    ensures StringLe(a, b) && StringLe(b, a) ==> a == b
    decreases |a|
  {
    if a != "" && b != "" && a[0] == b[0] {
      StringLeTotal(a[1..], b[1..]);
      assert a == [a[0]] + a[1..] && b == [b[0]] + b[1..];
    }
  }

  lemma {:induction false} StringLeTransitive(a: string, b: string, c: string)
    requires StringLe(a, b) && StringLe(b, c)
    ensures StringLe(a, c)
    decreases |a|
  {
    if a != "" && a[0] == b[0] && b[0] == c[0] {
      StringLeTransitive(a[1..], b[1..], c[1..]);
    }
  }

  /** The strings agree up to some position where the first one ends or has the smaller character. */
  predicate Precedes(a: string, b: string) {
    exists k :: 0 <= k <= |a| && SplitsAt(a, b, k)
  }

  predicate SplitsAt(a: string, b: string, k: nat)
    requires k <= |a|
  {
    k <= |b| && a[..k] == b[..k] && (k == |a| || (k < |b| && a[k] < b[k]))
  }

  lemma {:induction false} StringLeIff(a: string, b: string)
    ensures StringLe(a, b) <==> Precedes(a, b)
    decreases |a|
  {
    if a == "" {
      assert SplitsAt(a, b, 0);
    } else if b != "" && a[0] == b[0] {
      StringLeIff(a[1..], b[1..]);
      if k :| 0 <= k <= |a[1..]| && SplitsAt(a[1..], b[1..], k) {
        assert a[..k + 1] == [a[0]] + a[1..][..k] && b[..k + 1] == [b[0]] + b[1..][..k];
        assert SplitsAt(a, b, k + 1);
      }
      if k :| 0 <= k <= |a| && SplitsAt(a, b, k) {
        assert k > 0 && a[1..][..k - 1] == a[..k][1..] && b[1..][..k - 1] == b[..k][1..];
        assert SplitsAt(a[1..], b[1..], k - 1);
      }
    } else {
      if StringLe(a, b) { assert SplitsAt(a, b, 0); }
      forall k | 0 < k <= |a| ensures !SplitsAt(a, b, k) { FirstDiffers(a, b, k); }
    }
  }

  lemma FirstDiffers(a: string, b: string, k: nat)
    requires 0 < k <= |a| && (b == "" || a[0] != b[0])
    ensures !SplitsAt(a, b, k)
  {
    if k <= |b| { assert a[..k][0] == a[0] && b[..k][0] == b[0]; }
  }

  ghost predicate Preorder<T(!new)>(le: (T, T) -> bool) {
    (forall a, b :: le(a, b) || le(b, a)) && (forall a, b, c :: le(a, b) && le(b, c) ==> le(a, c))
  }

  ghost predicate Antisymmetric<T(!new)>(le: (T, T) -> bool) {
    forall a, b :: le(a, b) && le(b, a) ==> a == b
  }

  lemma StringOrder()
    ensures Preorder(StringLe) && Antisymmetric(StringLe)
  {
    forall a, b ensures (StringLe(a, b) || StringLe(b, a)) && (StringLe(a, b) && StringLe(b, a) ==> a == b) {
      StringLeTotal(a, b);
    }
    forall a, b, c | StringLe(a, b) && StringLe(b, c) ensures StringLe(a, c) { StringLeTransitive(a, b, c); }
  }

  /** Before the elements of `xs` that are not smaller. */
  function Insert<T>(le: (T, T) -> bool, x: T, xs: seq<T>): seq<T> {
    if xs == [] || le(x, xs[0]) then [x] + xs else [xs[0]] + Insert(le, x, xs[1..])
  }

  function Sorted<T>(le: (T, T) -> bool, xs: seq<T>): seq<T> {
    if xs == [] then [] else Insert(le, xs[0], Sorted(le, xs[1..]))
  }

  predicate IsSorted<T>(le: (T, T) -> bool, xs: seq<T>) {
    forall i, j :: 0 <= i < j < |xs| ==> le(xs[i], xs[j])
  }

  lemma {:induction false} InsertKeeps<T>(le: (T, T) -> bool, x: T, xs: seq<T>)
    ensures multiset(Insert(le, x, xs)) == multiset(xs) + multiset{x}
  {
    if xs != [] && !le(x, xs[0]) {
      InsertKeeps(le, x, xs[1..]);
      assert xs == [xs[0]] + xs[1..];
    }
  }

  lemma {:induction false} InsertSorts<T(!new)>(le: (T, T) -> bool, x: T, xs: seq<T>)
    requires Preorder(le) && IsSorted(le, xs)
    ensures IsSorted(le, Insert(le, x, xs))
  {
    if xs != [] && !le(x, xs[0]) {
      var rest := Insert(le, x, xs[1..]);
      InsertSorts(le, x, xs[1..]);
      InsertKeeps(le, x, xs[1..]);
      forall i | 0 <= i < |rest| ensures le(xs[0], rest[i]) {
        assert rest[i] in multiset(xs[1..]) + multiset{x};
      }
    }
  }

  /** The result is sorted and holds the same elements. */
  lemma {:induction false} SortedSorts<T(!new)>(le: (T, T) -> bool, xs: seq<T>)
    requires Preorder(le)
    ensures IsSorted(le, Sorted(le, xs)) && multiset(Sorted(le, xs)) == multiset(xs)
  {
    if xs != [] {
      SortedSorts(le, xs[1..]);
      InsertSorts(le, xs[0], Sorted(le, xs[1..]));
      InsertKeeps(le, xs[0], Sorted(le, xs[1..]));
      assert xs == [xs[0]] + xs[1..];
    }
  }

  /** Only one sorted arrangement exists. */
  lemma {:induction false} SortedUnique<T(!new)>(le: (T, T) -> bool, xs: seq<T>, ys: seq<T>)
    requires Preorder(le) && Antisymmetric(le) && IsSorted(le, xs) && IsSorted(le, ys) && multiset(xs) == multiset(ys)
    ensures xs == ys
  {
    assert |multiset(xs)| == |xs| && |multiset(ys)| == |ys|;
    if xs != [] {
      assert xs[0] in multiset(ys) && ys[0] in multiset(xs);
      HeadIsLeast(le, xs, ys[0]);
      HeadIsLeast(le, ys, xs[0]);
      TailBag(xs);
      TailBag(ys);
      SortedUnique(le, xs[1..], ys[1..]);
    }
  }

  lemma HeadIsLeast<T(!new)>(le: (T, T) -> bool, xs: seq<T>, y: T)
    requires Preorder(le) && IsSorted(le, xs) && y in multiset(xs)
    ensures le(xs[0], y)
  {
    var i :| 0 <= i < |xs| && xs[i] == y;
  }

  lemma TailBag<T>(xs: seq<T>)
    requires xs != []
    ensures multiset(xs[1..]) == multiset(xs) - multiset{xs[0]} && xs == [xs[0]] + xs[1..]
  {
    assert xs == [xs[0]] + xs[1..];
  }

  /** Sorting forgets the order of a list of strings. */
  lemma SameStringsSortAlike(xs: seq<string>, ys: seq<string>)
    requires multiset(xs) == multiset(ys)
    ensures Sorted(StringLe, xs) == Sorted(StringLe, ys)
  {
    StringOrder();
    SortedSorts(StringLe, xs);
    SortedSorts(StringLe, ys);
    SortedUnique(StringLe, Sorted(StringLe, xs), Sorted(StringLe, ys));
  }
}
