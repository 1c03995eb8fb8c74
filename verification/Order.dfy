/**
  The pinned orders: events by entity-ID bytes, then sequence; view rows by pk bytes, then
  sk bytes. One key type serves both. A Go string is a sequence of chars, one per byte.

  The stable sort is specified by what it keeps: the result is ordered, and the
  elements of every single key come in the order they had. Those two facts determine
  the result (SortedUnique), so results that depend on the input only through its
  per-key order follow for every caller.
 */
module Order {

  type Key = (string, string, int)

  predicate StrLeq(a: string, b: string)
  {
    a == "" || (b != "" && (a[0] < b[0] || (a[0] == b[0] && StrLeq(a[1..], b[1..]))))
  }

  lemma {:induction false} StrTotal(a: string, b: string)
    ensures StrLeq(a, b) || StrLeq(b, a)
  {
    if a != "" && b != "" && a[0] == b[0] { StrTotal(a[1..], b[1..]); }
  }

  lemma {:induction false} StrAntisymmetric(a: string, b: string)
    requires StrLeq(a, b) && StrLeq(b, a)
    ensures a == b
  {
    if a != "" {
      StrAntisymmetric(a[1..], b[1..]);
      assert a == [a[0]] + a[1..] && b == [b[0]] + b[1..];
    }
  }

  lemma {:induction false} StrTransitive(a: string, b: string, c: string)
    requires StrLeq(a, b) && StrLeq(b, c)
    ensures StrLeq(a, c)
  {
    if a != "" && a[0] == b[0] && b[0] == c[0] {
      StrTransitive(a[1..], b[1..], c[1..]);
    }
  }

  predicate StrLess(a: string, b: string)
  {
    StrLeq(a, b) && a != b
  }

  predicate FirstDifference(a: string, b: string, i: nat)
  {
    i < |a| && i < |b| && a[i] < b[i] && a[..i] == b[..i]
  }

  lemma {:induction false} Longer(a: string, b: string)
    requires a != "" && b != "" && a[0] == b[0]
    ensures a < b <==> a[1..] < b[1..]
    ensures (exists i: nat :: FirstDifference(a, b, i)) <==> exists i: nat :: FirstDifference(a[1..], b[1..], i)
  {
    assert a == [a[0]] + a[1..] && b == [b[0]] + b[1..];
    if i: nat :| FirstDifference(a, b, i) {
      assert a[1..][..i - 1] == a[..i][1..] && b[1..][..i - 1] == b[..i][1..];
      assert FirstDifference(a[1..], b[1..], i - 1);
    }
    if i: nat :| FirstDifference(a[1..], b[1..], i) {
      assert a[..i + 1] == [a[0]] + a[1..][..i] && b[..i + 1] == [b[0]] + b[1..][..i];
      assert FirstDifference(a, b, i + 1);
    }
  }

  /** Byte order: a proper prefix comes first, and otherwise the first difference decides. */
  lemma {:induction false} ByteOrder(a: string, b: string)
    ensures StrLess(a, b) <==> a < b || exists i: nat :: FirstDifference(a, b, i)
  {
    forall i: nat | FirstDifference(a, b, i) && i > 0 ensures a[0] == b[0] { assert a[..i][0] == b[..i][0]; }
    if a != "" && b != "" {
      if a[0] == b[0] {
        ByteOrder(a[1..], b[1..]);
        Longer(a, b);
        assert a == [a[0]] + a[1..] && b == [b[0]] + b[1..];
      } else if a[0] < b[0] {
        assert FirstDifference(a, b, 0);
      }
    }
  }

  predicate KeyLeq(j: Key, k: Key)
  {
    StrLess(j.0, k.0) || (j.0 == k.0 && (StrLess(j.1, k.1) || (j.1 == k.1 && j.2 <= k.2)))
  }

  lemma {:induction false} KeyTotal(j: Key, k: Key)
    ensures KeyLeq(j, k) || KeyLeq(k, j)
  {
    StrTotal(j.0, k.0);
    StrTotal(j.1, k.1);
  }

  lemma {:induction false} StrLessAsymmetric(a: string, b: string)
    requires StrLess(a, b)
    ensures !StrLess(b, a)
  {
    if StrLeq(b, a) { StrAntisymmetric(a, b); }
  }

  lemma {:induction false} StrLessTransitive(a: string, b: string, c: string)
    requires StrLess(a, b) && StrLess(b, c)
    ensures StrLess(a, c)
  {
    StrTransitive(a, b, c);
    if a == c { StrAntisymmetric(a, b); }
  }

  lemma {:induction false} KeyAntisymmetric(j: Key, k: Key)
    requires KeyLeq(j, k) && KeyLeq(k, j)
    ensures j == k
  {
    if StrLess(j.0, k.0) { StrLessAsymmetric(j.0, k.0); }
    if StrLess(j.1, k.1) { StrLessAsymmetric(j.1, k.1); }
  }

  lemma {:induction false} KeyTransitive(i: Key, j: Key, k: Key)
    requires KeyLeq(i, j) && KeyLeq(j, k)
    ensures KeyLeq(i, k)
  {
    if StrLess(i.0, j.0) && StrLess(j.0, k.0) { StrLessTransitive(i.0, j.0, k.0); }
    if StrLess(i.1, j.1) && StrLess(j.1, k.1) { StrLessTransitive(i.1, j.1, k.1); }
  }

  predicate Sorted<T>(xs: seq<T>, key: T -> Key)
  {
    forall i, j | 0 <= i < j < |xs| :: KeyLeq(key(xs[i]), key(xs[j]))
  }

  /** The elements with key `k`, in order. */
  function Select<T>(xs: seq<T>, key: T -> Key, k: Key): seq<T>
  {
    if xs == [] then []
    else (if key(xs[0]) == k then [xs[0]] else []) + Select(xs[1..], key, k)
  }

  function Insert<T>(x: T, xs: seq<T>, key: T -> Key): seq<T>
  {
    if xs == [] || KeyLeq(key(x), key(xs[0])) then [x] + xs
    else [xs[0]] + Insert(x, xs[1..], key)
  }

  /** The stable sort by key. */
  function Sort<T>(xs: seq<T>, key: T -> Key): seq<T>
  {
    if xs == [] then [] else Insert(xs[0], Sort(xs[1..], key), key)
  }

  lemma {:induction false} InsertPermutes<T>(x: T, xs: seq<T>, key: T -> Key)
    ensures multiset(Insert(x, xs, key)) == multiset([x] + xs)
  {
    if xs != [] && !KeyLeq(key(x), key(xs[0])) {
      InsertPermutes(x, xs[1..], key);
      assert xs == [xs[0]] + xs[1..];
    }
  }

  lemma {:induction false} InsertMember<T>(x: T, xs: seq<T>, key: T -> Key, y: T)
    requires y in Insert(x, xs, key)
    ensures y == x || y in xs
  {
    InsertPermutes(x, xs, key);
    assert y in multiset(Insert(x, xs, key)) && y in [x] + xs;
  }

  lemma {:induction false} InsertSorts<T>(x: T, xs: seq<T>, key: T -> Key)
    requires Sorted(xs, key)
    ensures Sorted(Insert(x, xs, key), key)
  {
    if xs == [] {
    } else if KeyLeq(key(x), key(xs[0])) {
      forall y | y in xs ensures KeyLeq(key(x), key(y)) {
        HeadIsLeast(xs, key, y);
        KeyTransitive(key(x), key(xs[0]), key(y));
      }
    } else {
      KeyTotal(key(x), key(xs[0]));
      InsertSorts(x, xs[1..], key);
      forall y | y in Insert(x, xs[1..], key) ensures KeyLeq(key(xs[0]), key(y)) {
        InsertMember(x, xs[1..], key, y);
        if y != x { HeadIsLeast(xs, key, y); }
      }
    }
  }

  lemma {:induction false} InsertSelects<T>(x: T, xs: seq<T>, key: T -> Key, k: Key)
    ensures Select(Insert(x, xs, key), key, k) == Select([x] + xs, key, k)
  {
    if xs != [] && !KeyLeq(key(x), key(xs[0])) {
      KeyTotal(key(x), key(x));
      InsertSelects(x, xs[1..], key, k);
    }
  }

  lemma {:induction false} InsertKeeps<T>(x: T, xs: seq<T>, key: T -> Key)
    requires Sorted(xs, key)
    ensures Sorted(Insert(x, xs, key), key)
    ensures multiset(Insert(x, xs, key)) == multiset([x] + xs)
    ensures forall k :: Select(Insert(x, xs, key), key, k) == Select([x] + xs, key, k)
  {
    InsertSorts(x, xs, key);
    InsertPermutes(x, xs, key);
    forall k ensures Select(Insert(x, xs, key), key, k) == Select([x] + xs, key, k) { InsertSelects(x, xs, key, k); }
  }

  /** The sort orders, permutes, and is stable. */
  lemma {:induction false} SortKeeps<T>(xs: seq<T>, key: T -> Key)
    ensures Sorted(Sort(xs, key), key)
    ensures multiset(Sort(xs, key)) == multiset(xs)
    ensures forall k :: Select(Sort(xs, key), key, k) == Select(xs, key, k)
  {
    if xs != [] {
      SortKeeps(xs[1..], key);
      var tail := Sort(xs[1..], key);
      InsertKeeps(xs[0], tail, key);
      assert xs == [xs[0]] + xs[1..];
      forall k ensures Select([xs[0]] + tail, key, k) == Select(xs, key, k) {
        assert ([xs[0]] + tail)[1..] == tail;
      }
    }
  }

  lemma {:induction false} SelectMember<T>(xs: seq<T>, key: T -> Key, k: Key, x: T)
    ensures x in Select(xs, key, k) <==> x in xs && key(x) == k
  {
    if xs != [] {
      SelectMember(xs[1..], key, k, x);
      assert xs == [xs[0]] + xs[1..];
    }
  }

  lemma {:induction false} HeadIsLeast<T>(xs: seq<T>, key: T -> Key, x: T)
    requires Sorted(xs, key) && x in xs
    ensures KeyLeq(key(xs[0]), key(x))
  {}

  /** An ordered sequence is determined by the order of each single key's elements. */
  lemma {:induction false} SortedUnique<T>(xs: seq<T>, ys: seq<T>, key: T -> Key)
    requires Sorted(xs, key) && Sorted(ys, key)
    requires forall k :: Select(xs, key, k) == Select(ys, key, k)
    ensures xs == ys
  {
    if xs != [] {
      var k := key(xs[0]);
      SelectMember(xs, key, k, xs[0]);
      SelectMember(ys, key, k, xs[0]);
      HeadIsLeast(ys, key, xs[0]);
      SelectMember(ys, key, key(ys[0]), ys[0]);
      SelectMember(xs, key, key(ys[0]), ys[0]);
      HeadIsLeast(xs, key, ys[0]);
      KeyAntisymmetric(key(xs[0]), key(ys[0]));
      assert Select(xs, key, k)[0] == xs[0] && Select(ys, key, k)[0] == ys[0];
      forall m ensures Select(xs[1..], key, m) == Select(ys[1..], key, m) {
        assert Select(xs, key, m) == Select(ys, key, m);
        SelectTail(xs, key, m);
        SelectTail(ys, key, m);
      }
      SortedUnique(xs[1..], ys[1..], key);
      assert xs == [xs[0]] + xs[1..] && ys == [ys[0]] + ys[1..];
    }
  }

  lemma {:induction false} SelectTail<T>(xs: seq<T>, key: T -> Key, k: Key)
    requires xs != []
    ensures Select(xs[1..], key, k) ==
            if key(xs[0]) == k then Select(xs, key, k)[1..] else Select(xs, key, k)
  {}

  lemma {:induction false} SelectCount<T>(xs: seq<T>, key: T -> Key, x: T)
    ensures multiset(Select(xs, key, key(x)))[x] == multiset(xs)[x]
  {
    if xs != [] {
      SelectCount(xs[1..], key, x);
      assert xs == [xs[0]] + xs[1..];
    }
  }

  predicate DistinctKeys<T>(xs: seq<T>, key: T -> Key)
  {
    forall i, j | 0 <= i < j < |xs| :: key(xs[i]) != key(xs[j])
  }

  lemma {:induction false} SelectDistinct<T>(xs: seq<T>, key: T -> Key, k: Key)
    requires DistinctKeys(xs, key)
    ensures |Select(xs, key, k)| <= 1
  {
    if xs != [] {
      SelectDistinct(xs[1..], key, k);
      if key(xs[0]) == k && Select(xs[1..], key, k) != [] {
        SelectMember(xs[1..], key, k, Select(xs[1..], key, k)[0]);
        assert false;
      }
    }
  }

  lemma {:induction false} CountTwice<T>(b: seq<T>)
    ensures |b| > 1 && b[0] == b[1] ==> multiset(b)[b[0]] >= 2
  {
    if |b| > 1 { assert b == [b[0], b[1]] + b[2..]; }
  }

  lemma {:induction false} ShortSequencesAgree<T>(a: seq<T>, b: seq<T>)
    requires |a| <= 1
    requires forall y :: y in a <==> y in b
    requires forall y | y in a :: multiset(b)[y] == 1
    ensures a == b
  {
    if a != [] { assert a[0] in b; }
    if b != [] {
      assert b[0] in a && (|b| > 1 ==> b[1] in a);
      CountTwice(b);
    }
  }

  lemma {:induction false} SelectSameMembers<T>(xs: seq<T>, ys: seq<T>, key: T -> Key, k: Key, y: T)
    requires multiset(xs) == multiset(ys)
    ensures y in Select(xs, key, k) <==> y in Select(ys, key, k)
  {
    SelectMember(xs, key, k, y);
    SelectMember(ys, key, k, y);
    assert y in multiset(xs) <==> y in multiset(ys);
  }

  lemma {:induction false} SelectOnce<T>(xs: seq<T>, ys: seq<T>, key: T -> Key, k: Key, y: T)
    requires DistinctKeys(xs, key) && multiset(xs) == multiset(ys)
    requires y in Select(xs, key, k)
    ensures multiset(Select(ys, key, k))[y] == 1
  {
    SelectDistinct(xs, key, k);
    SelectMember(xs, key, k, y);
    SelectCount(xs, key, y);
    SelectCount(ys, key, y);
    assert Select(xs, key, k) == [y];
  }

  /** With distinct keys the order of the input does not matter at all. */
  lemma {:induction false} DistinctSelectsAgree<T>(xs: seq<T>, ys: seq<T>, key: T -> Key, k: Key)
    requires DistinctKeys(xs, key) && multiset(xs) == multiset(ys)
    ensures Select(xs, key, k) == Select(ys, key, k)
  {
    var a, b := Select(xs, key, k), Select(ys, key, k);
    SelectDistinct(xs, key, k);
    forall y ensures y in a <==> y in b { SelectSameMembers(xs, ys, key, k, y); }
    forall y | y in a ensures multiset(b)[y] == 1 { SelectOnce(xs, ys, key, k, y); }
    ShortSequencesAgree(a, b);
  }

  lemma {:induction false} SelectPair<T>(xs: seq<T>, key: T -> Key, i: nat, j: nat)
    requires i < j < |xs| && key(xs[i]) == key(xs[j])
    ensures |Select(xs, key, key(xs[i]))| >= 2
  {
    if i == 0 {
      SelectMember(xs[1..], key, key(xs[i]), xs[j]);
      assert xs[1..][j - 1] == xs[j];
    } else {
      SelectPair(xs[1..], key, i - 1, j - 1);
    }
  }

  /** A permutation keeps keys distinct. */
  lemma {:induction false} DistinctKept<T>(a: seq<T>, b: seq<T>, key: T -> Key)
    requires DistinctKeys(a, key) && multiset(a) == multiset(b)
    ensures DistinctKeys(b, key)
  {
    forall i, j | 0 <= i < j < |b| ensures key(b[i]) != key(b[j]) {
      DistinctSelectsAgree(a, b, key, key(b[i]));
      SelectDistinct(a, key, key(b[i]));
      if key(b[i]) == key(b[j]) { SelectPair(b, key, i, j); }
    }
  }

  /** Sorting gives one answer for every permutation of elements with distinct keys. */
  lemma {:induction false} SortIgnoresOrder<T>(a: seq<T>, b: seq<T>, key: T -> Key)
    requires DistinctKeys(a, key) && multiset(a) == multiset(b)
    ensures Sort(a, key) == Sort(b, key) && DistinctKeys(Sort(a, key), key)
  {
    SortKeeps(a, key);
    SortKeeps(b, key);
    forall k ensures Select(Sort(a, key), key, k) == Select(Sort(b, key), key, k) {
      DistinctSelectsAgree(a, b, key, k);
    }
    SortedUnique(Sort(a, key), Sort(b, key), key);
    DistinctKept(a, Sort(a, key), key);
  }

  lemma {:induction false} SingletonsAgree<T>(x: seq<T>, y: seq<T>)
    requires |x| <= 1 && |y| <= 1
    requires forall z :: z in x <==> z in y
    ensures x == y
  {
    if x != [] { assert x[0] in x; }
    if y != [] { assert y[0] in y; }
  }

  lemma {:induction false} SelectsOfSetsAgree<T>(a: seq<T>, b: seq<T>, key: T -> Key, k: Key)
    requires DistinctKeys(a, key) && DistinctKeys(b, key)
    requires forall x :: x in a <==> x in b
    ensures Select(a, key, k) == Select(b, key, k)
  {
    var x, y := Select(a, key, k), Select(b, key, k);
    SelectDistinct(a, key, k);
    SelectDistinct(b, key, k);
    forall z ensures z in x <==> z in y {
      SelectMember(a, key, k, z);
      SelectMember(b, key, k, z);
    }
    SingletonsAgree(x, y);
  }

  /** A set of elements with distinct keys has one ordered listing. */
  lemma {:induction false} ListingUnique<T>(a: seq<T>, b: seq<T>, key: T -> Key)
    requires Sorted(a, key) && DistinctKeys(a, key) && Sorted(b, key) && DistinctKeys(b, key)
    requires forall x :: x in a <==> x in b
    ensures a == b
  {
    forall k ensures Select(a, key, k) == Select(b, key, k) { SelectsOfSetsAgree(a, b, key, k); }
    SortedUnique(a, b, key);
  }
}
