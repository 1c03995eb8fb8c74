/** Selecting and expanding the elements of a sequence, in order. */
module Sequences {

  function Filter<T>(p: T -> bool, xs: seq<T>): seq<T>
  {
    if xs == [] then []
    else Filter(p, xs[..|xs| - 1]) + if p(xs[|xs| - 1]) then [xs[|xs| - 1]] else []
  }

  function FlatMap<T, U>(f: T -> seq<U>, xs: seq<T>): seq<U>
  {
    if xs == [] then [] else FlatMap(f, xs[..|xs| - 1]) + f(xs[|xs| - 1])
  }

  lemma {:induction false} FilterSnoc<T>(p: T -> bool, xs: seq<T>, x: T)
    ensures Filter(p, xs + [x]) == Filter(p, xs) + if p(x) then [x] else []
  {}

  lemma {:induction false} FlatMapSnoc<T, U>(f: T -> seq<U>, xs: seq<T>, x: T)
    ensures FlatMap(f, xs + [x]) == FlatMap(f, xs) + f(x)
  {}

  lemma {:induction false} FilterAppend<T>(p: T -> bool, a: seq<T>, b: seq<T>)
    ensures Filter(p, a + b) == Filter(p, a) + Filter(p, b)
  {
    if b == [] {
      assert a + b == a;
    } else {
      var front, x := b[..|b| - 1], b[|b| - 1];
      FilterAppend(p, a, front);
      assert a + b == (a + front) + [x];
      FilterSnoc(p, a + front, x);
    }
  }

  lemma {:induction false} Associative<T>(a: seq<T>, b: seq<T>, c: seq<T>)
    ensures (a + b) + c == a + (b + c)
  {}

  lemma {:induction false} FlatMapAppend<T, U>(f: T -> seq<U>, a: seq<T>, b: seq<T>)
    ensures FlatMap(f, a + b) == FlatMap(f, a) + FlatMap(f, b)
  {
    if b == [] {
      assert a + b == a;
    } else {
      var front, x := b[..|b| - 1], b[|b| - 1];
      FlatMapAppend(f, a, front);
      assert a + b == (a + front) + [x] && b == front + [x];
      FlatMapSnoc(f, a + front, x);
      FlatMapSnoc(f, front, x);
      Associative(FlatMap(f, a), FlatMap(f, front), f(x));
    }
  }

  lemma {:induction false} FilterMember<T>(p: T -> bool, xs: seq<T>, x: T)
    ensures x in Filter(p, xs) <==> x in xs && p(x)
  {
    if xs != [] {
      FilterMember(p, xs[..|xs| - 1], x);
      assert xs == xs[..|xs| - 1] + [xs[|xs| - 1]];
    }
  }

  lemma {:induction false} FlatMapMember<T, U>(f: T -> seq<U>, xs: seq<T>, y: U)
    ensures y in FlatMap(f, xs) <==> exists i | 0 <= i < |xs| :: y in f(xs[i])
  {
    if xs != [] {
      var last := |xs| - 1;
      FlatMapMember(f, xs[..last], y);
      assert forall i | 0 <= i < last :: xs[..last][i] == xs[i];
    }
  }

  /** Elements that contribute nothing to a selection can be left out beforehand. */
  lemma {:induction false} FilterThroughFlatMap<T, U>(p: U -> bool, f: T -> seq<U>, q: T -> bool, xs: seq<T>)
    requires forall i | 0 <= i < |xs| && !q(xs[i]) :: Filter(p, f(xs[i])) == []
    ensures Filter(p, FlatMap(f, xs)) == Filter(p, FlatMap(f, Filter(q, xs)))
  {
    if xs != [] {
      var front, x := xs[..|xs| - 1], xs[|xs| - 1];
      FilterThroughFlatMap(p, f, q, front);
      FilterAppend(p, FlatMap(f, front), f(x));
      if q(x) {
        FlatMapSnoc(f, Filter(q, front), x);
        FilterAppend(p, FlatMap(f, Filter(q, front)), f(x));
      } else {
        assert Filter(p, f(x)) == [];
        assert Filter(q, xs) == Filter(q, front);
      }
    }
  }

  lemma {:induction false} FilterEmpty<T>(p: T -> bool, xs: seq<T>)
    requires forall x | x in xs :: !p(x)
    ensures Filter(p, xs) == []
  {
    if Filter(p, xs) != [] {
      FilterMember(p, xs, Filter(p, xs)[0]);
    }
  }

  lemma {:induction false} FilterCount<T>(p: T -> bool, xs: seq<T>, x: T)
    ensures multiset(Filter(p, xs))[x] == if p(x) then multiset(xs)[x] else 0
  {
    if xs != [] {
      FilterCount(p, xs[..|xs| - 1], x);
      assert xs == xs[..|xs| - 1] + [xs[|xs| - 1]];
    }
  }

  /** Permuted sequences have permuted selections. */
  lemma {:induction false} FilterPermutes<T>(p: T -> bool, xs: seq<T>, ys: seq<T>)
    requires multiset(xs) == multiset(ys)
    ensures multiset(Filter(p, xs)) == multiset(Filter(p, ys))
  {
    var a, b := multiset(Filter(p, xs)), multiset(Filter(p, ys));
    forall x | x in a + b ensures a[x] == b[x] {
      FilterCount(p, xs, x);
      FilterCount(p, ys, x);
    }
    assert a <= b && b <= a;
  }

  lemma {:induction false} FilterAll<T>(p: T -> bool, xs: seq<T>)
    requires forall x | x in xs :: p(x)
    ensures Filter(p, xs) == xs
  {
    if xs != [] {
      FilterAll(p, xs[..|xs| - 1]);
      assert xs == xs[..|xs| - 1] + [xs[|xs| - 1]];
    }
  }

  /** A property that holds of one position only selects that element. */
  lemma {:induction false} FilterTwo<T>(p: T -> bool, xs: seq<T>, i: nat, j: nat)
    requires i < j < |xs| && p(xs[i]) && p(xs[j])
    ensures |Filter(p, xs)| >= 2
  {
    var last := |xs| - 1;
    if j < last {
      FilterTwo(p, xs[..last], i, j);
    } else {
      FilterMember(p, xs[..last], xs[i]);
      assert xs[..last][i] == xs[i];
    }
  }

  lemma {:induction false} FilterOne<T>(p: T -> bool, xs: seq<T>, i: nat)
    requires i < |xs| && forall j | 0 <= j < |xs| :: p(xs[j]) <==> j == i
    ensures Filter(p, xs) == [xs[i]]
  {
    var last := |xs| - 1;
    if i < last {
      FilterOne(p, xs[..last], i);
    } else {
      FilterEmpty(p, xs[..last]);
    }
  }

  function Map<T, U>(f: T -> U, xs: seq<T>): (ys: seq<U>)
    ensures |ys| == |xs| && forall i | 0 <= i < |xs| :: ys[i] == f(xs[i])
  {
    seq(|xs|, i requires 0 <= i < |xs| => f(xs[i]))
  }

  /** A mapping that keeps the property commutes with selecting by it. */
  lemma {:induction false} FilterMap<T>(p: T -> bool, f: T -> T, xs: seq<T>)
    requires forall x | x in xs :: p(f(x)) == p(x)
    ensures Filter(p, Map(f, xs)) == Map(f, Filter(p, xs))
  {
    if xs != [] {
      var front, x := xs[..|xs| - 1], xs[|xs| - 1];
      FilterMap(p, f, front);
      assert Map(f, xs) == Map(f, front) + [f(x)];
      FilterSnoc(p, Map(f, front), f(x));
      assert xs == front + [x];
    }
  }

  predicate NoRepeats<T(==)>(xs: seq<T>)
  {
    forall i, j | 0 <= i < j < |xs| :: xs[i] != xs[j]
  }

  lemma {:induction false} FilterPrefix<T>(p: T -> bool, xs: seq<T>, n: nat)
    requires n <= |xs|
    ensures Filter(p, xs[..n]) <= Filter(p, xs)
  {
    FilterAppend(p, xs[..n], xs[n..]);
    assert xs == xs[..n] + xs[n..];
  }

  /** Two prefixes of one sequence that end in the same element are equal. */
  lemma {:induction false} PrefixesEndingAlike<T>(all: seq<T>, a: seq<T>, b: seq<T>)
    requires NoRepeats(all) && a <= all && b <= all && a != [] && b != []
    requires a[|a| - 1] == b[|b| - 1]
    ensures a == b
  {}

  lemma {:induction false} FilterNoRepeats<T>(p: T -> bool, xs: seq<T>)
    requires NoRepeats(xs)
    ensures NoRepeats(Filter(p, xs))
  {
    if xs != [] {
      var front, x := xs[..|xs| - 1], xs[|xs| - 1];
      FilterNoRepeats(p, front);
      forall i | 0 <= i < |Filter(p, front)| ensures Filter(p, front)[i] != x {
        FilterMember(p, front, Filter(p, front)[i]);
      }
    }
  }

  function IndexIn<T(==)>(xs: seq<T>, x: T): (k: nat)
    ensures k <= |xs|
    ensures x in xs ==> k < |xs| && xs[k] == x
  {
    if xs == [] || xs[0] == x then 0 else 1 + IndexIn(xs[1..], x)
  }

}
