/** The stable sort the source calls (`sort`, `sort_by`, `sort_by_key`), and filtering of sequences. */
module Sorting {
  /** A strict weak order: what a comparator must be for sorting to mean anything. */
  ghost predicate WeakOrder<T(!new)>(less: (T, T) -> bool) {
    && (forall x :: !less(x, x))
    && (forall x, y, z :: less(x, y) && less(y, z) ==> less(x, z))
    && (forall x, y, z :: less(x, y) ==> less(x, z) || less(z, y))
  }

  ghost predicate Sorted<T>(s: seq<T>, less: (T, T) -> bool) {
    forall i, j | 0 <= i < j < |s| :: !less(s[j], s[i])
  }

  ghost predicate Distinct<T>(s: seq<T>) {
    forall i, j | 0 <= i < j < |s| :: s[i] != s[j]
  }

  function Inserted<T>(x: T, s: seq<T>, less: (T, T) -> bool): seq<T> {
    if s == [] then [x]
    else if less(s[0], x) then [s[0]] + Inserted(x, s[1..], less)
    else [x] + s
  }

  function SortBy<T>(xs: seq<T>, less: (T, T) -> bool): seq<T> {
    if xs == [] then [] else Inserted(xs[0], SortBy(xs[1..], less), less)
  }

  function Filter<T>(xs: seq<T>, keep: T -> bool): seq<T> {
    if xs == [] then []
    else if keep(xs[0]) then [xs[0]] + Filter(xs[1..], keep)
    else Filter(xs[1..], keep)
  }

  lemma {:induction false} InsertedPermutes<T>(x: T, s: seq<T>, less: (T, T) -> bool)
    ensures multiset(Inserted(x, s, less)) == multiset{x} + multiset(s)
  {
    if s != [] {
      InsertedPermutes(x, s[1..], less);
      assert s == [s[0]] + s[1..];
    }
  }

  lemma {:induction false} InsertedSorted<T(!new)>(x: T, s: seq<T>, less: (T, T) -> bool)
    requires WeakOrder(less) && Sorted(s, less)
    ensures Sorted(Inserted(x, s, less), less)
  {
    if s != [] && less(s[0], x) {
      InsertedSorted(x, s[1..], less);
      InsertedPermutes(x, s[1..], less);
      var rest := Inserted(x, s[1..], less);
      forall k | 0 <= k < |rest| ensures !less(rest[k], s[0]) {
        assert rest[k] in multiset(rest);
        if rest[k] != x {
          assert rest[k] in s[1..];
        }
      }
    }
  }

  /** Sorting reorders and nothing else, and the result is in order. */
  lemma {:induction false} SortBySorts<T(!new)>(xs: seq<T>, less: (T, T) -> bool)
    requires WeakOrder(less)
    ensures multiset(SortBy(xs, less)) == multiset(xs)
    ensures Sorted(SortBy(xs, less), less)
  {
    if xs != [] {
      SortBySorts(xs[1..], less);
      InsertedPermutes(xs[0], SortBy(xs[1..], less), less);
      InsertedSorted(xs[0], SortBy(xs[1..], less), less);
      assert xs == [xs[0]] + xs[1..];
    }
  }

  lemma SameElements<T>(s: seq<T>, t: seq<T>)
    requires multiset(s) == multiset(t)
    ensures |s| == |t|
    ensures forall x :: x in s <==> x in t
    ensures Distinct(s) <==> Distinct(t)
  {
    assert |multiset(s)| == |s| && |multiset(t)| == |t|;
    forall x ensures x in s <==> x in t {
      assert x in s <==> x in multiset(s);
      assert x in t <==> x in multiset(t);
    }
    DistinctByCount(s);
    DistinctByCount(t);
  }

  lemma {:induction false} DistinctByCount<T>(s: seq<T>)
    ensures Distinct(s) <==> forall x | x in multiset(s) :: multiset(s)[x] == 1
  {
    if s != [] {
      var rest := s[1..];
      DistinctByCount(rest);
      assert s == [s[0]] + rest;
      assert multiset(s) == multiset{s[0]} + multiset(rest);
      if Distinct(s) {
        assert Distinct(rest) by {
          forall i, j | 0 <= i < j < |rest| ensures rest[i] != rest[j] {
            assert s[i + 1] != s[j + 1];
          }
        }
        assert s[0] !in rest;
      }
      if forall x | x in multiset(s) :: multiset(s)[x] == 1 {
        forall x | x in multiset(rest) ensures multiset(rest)[x] == 1 {
          assert x in multiset(s);
        }
        assert s[0] !in multiset(rest) by {
          assert s[0] in multiset(s);
        }
        assert s[0] !in rest;
      }
    }
  }

  lemma SameSetSameMultiset<T>(s: seq<T>, t: seq<T>)
    requires Distinct(s) && Distinct(t) && forall x :: x in s <==> x in t
    ensures multiset(s) == multiset(t)
  {
    DistinctByCount(s);
    DistinctByCount(t);
    forall x ensures multiset(s)[x] == multiset(t)[x] {
      assert (x in s <==> x in multiset(s)) && (x in t <==> x in multiset(t));
    }
  }

  lemma {:induction false} FilterMember<T>(xs: seq<T>, keep: T -> bool, x: T)
    ensures x in Filter(xs, keep) <==> x in xs && keep(x)
  {
    if xs != [] {
      FilterMember(xs[1..], keep, x);
      assert xs == [xs[0]] + xs[1..];
    }
  }

  lemma FilterMembers<T>(xs: seq<T>, keep: T -> bool)
    ensures forall x :: x in Filter(xs, keep) <==> x in xs && keep(x)
  {
    forall x ensures x in Filter(xs, keep) <==> x in xs && keep(x) {
      FilterMember(xs, keep, x);
    }
  }

  lemma {:induction false} FilterConcat<T>(xs: seq<T>, ys: seq<T>, keep: T -> bool)
    ensures Filter(xs + ys, keep) == Filter(xs, keep) + Filter(ys, keep)
  {
    if xs == [] {
      assert xs + ys == ys;
    } else {
      assert (xs + ys)[1..] == xs[1..] + ys;
      FilterConcat(xs[1..], ys, keep);
    }
  }

  lemma FilterCons<T>(x: T, xs: seq<T>, keep: T -> bool)
    ensures Filter([x] + xs, keep) == if keep(x) then [x] + Filter(xs, keep) else Filter(xs, keep)
  {
    assert ([x] + xs)[1..] == xs;
  }

  lemma {:induction false} FilterAll<T>(xs: seq<T>, keep: T -> bool)
    requires forall x | x in xs :: keep(x)
    ensures Filter(xs, keep) == xs
  {
    if xs != [] { FilterAll(xs[1..], keep); }
  }

  lemma {:induction false} FilterNone<T>(xs: seq<T>, keep: T -> bool)
    requires forall x | x in xs :: !keep(x)
    ensures Filter(xs, keep) == []
  {
    if xs != [] { FilterNone(xs[1..], keep); }
  }

  function Both<T>(p: T -> bool, q: T -> bool): T -> bool {
    x => p(x) && q(x)
  }

  lemma {:induction false} FilterBoth<T>(xs: seq<T>, p: T -> bool, q: T -> bool)
    ensures Filter(Filter(xs, p), q) == Filter(xs, Both(p, q))
  {
    if xs != [] {
      FilterBoth(xs[1..], p, q);
      FilterCons(xs[0], Filter(xs[1..], p), q);
    }
  }

  lemma {:induction false} FilterSame<T>(xs: seq<T>, p: T -> bool, q: T -> bool)
    requires forall x | x in xs :: p(x) == q(x)
    ensures Filter(xs, p) == Filter(xs, q)
  {
    if xs != [] { FilterSame(xs[1..], p, q); }
  }

  lemma {:induction false} FilterDistinct<T>(xs: seq<T>, keep: T -> bool)
    requires Distinct(xs)
    ensures Distinct(Filter(xs, keep))
  {
    if xs != [] {
      assert Distinct(xs[1..]) by {
        forall i, j | 0 <= i < j < |xs[1..]| ensures xs[1..][i] != xs[1..][j] {
          assert xs[i + 1] != xs[j + 1];
        }
      }
      FilterDistinct(xs[1..], keep);
      FilterMembers(xs[1..], keep);
      assert xs[0] !in xs[1..];
    }
  }

  lemma InsertedCons<T>(x: T, y: T, s: seq<T>, less: (T, T) -> bool)
    ensures Inserted(x, [y] + s, less) == if less(y, x) then [y] + Inserted(x, s, less) else [x, y] + s
  {
    assert ([y] + s)[1..] == s;
  }

  lemma {:induction false} FilterInserted<T(!new)>(x: T, s: seq<T>, less: (T, T) -> bool, keep: T -> bool)
    requires WeakOrder(less) && Sorted(s, less)
    ensures Filter(Inserted(x, s, less), keep)
         == if keep(x) then Inserted(x, Filter(s, keep), less) else Filter(s, keep)
  {
    if s == [] {
    } else if less(s[0], x) {
      SortedTail(s, less);
      FilterInserted(x, s[1..], less, keep);
      FilterCons(s[0], Inserted(x, s[1..], less), keep);
      InsertedCons(x, s[0], Filter(s[1..], keep), less);
    } else {
      FilterCons(x, s, keep);
      if Filter(s, keep) != [] {
        NotBefore(x, s, less, keep);
      }
    }
  }

  lemma NotBefore<T(!new)>(x: T, s: seq<T>, less: (T, T) -> bool, keep: T -> bool)
    requires WeakOrder(less) && Sorted(s, less) && s != [] && !less(s[0], x) && Filter(s, keep) != []
    ensures !less(Filter(s, keep)[0], x)
  {
    var y := Filter(s, keep)[0];
    FilterMember(s, keep, y);
    var j :| 0 <= j < |s| && s[j] == y;
    assert j > 0 ==> !less(s[j], s[0]);
  }

  /** A stable sort commutes with leaving elements out. */
  lemma {:induction false} SortByFilter<T(!new)>(xs: seq<T>, less: (T, T) -> bool, keep: T -> bool)
    requires WeakOrder(less)
    ensures Filter(SortBy(xs, less), keep) == SortBy(Filter(xs, keep), less)
  {
    if xs != [] {
      SortByFilter(xs[1..], less, keep);
      SortBySorts(xs[1..], less);
      FilterInserted(xs[0], SortBy(xs[1..], less), less, keep);
      assert ([xs[0]] + Filter(xs[1..], keep))[1..] == Filter(xs[1..], keep);
    }
  }

  /** A stable sort leaves what is already in order as it is. */
  lemma {:induction false} SortBySorted<T(!new)>(xs: seq<T>, less: (T, T) -> bool)
    requires WeakOrder(less) && Sorted(xs, less)
    ensures SortBy(xs, less) == xs
  {
    if xs != [] {
      assert Sorted(xs[1..], less) by {
        forall i, j | 0 <= i < j < |xs[1..]| ensures !less(xs[1..][j], xs[1..][i]) {
          assert !less(xs[j + 1], xs[i + 1]);
        }
      }
      SortBySorted(xs[1..], less);
    }
  }

  /** Two sorted sequences of the same elements, in which only equal elements tie, are equal. */
  lemma {:induction false} SortedUnique<T(!new)>(s: seq<T>, t: seq<T>, less: (T, T) -> bool)
    requires Sorted(s, less) && Sorted(t, less) && multiset(s) == multiset(t)
    requires forall x, y | x in s && y in s && x != y :: less(x, y) || less(y, x)
    ensures s == t
  {
    SameElements(s, t);
    if s != [] {
      SortedHead(s, t, less);
      TailsAgree(s, t);
      SortedTail(s, less);
      SortedTail(t, less);
      SortedUnique(s[1..], t[1..], less);
      assert s == [s[0]] + s[1..] && t == [t[0]] + t[1..];
    }
  }

  lemma TailsAgree<T>(s: seq<T>, t: seq<T>)
    requires s != [] && t != [] && s[0] == t[0] && multiset(s) == multiset(t)
    ensures multiset(s[1..]) == multiset(t[1..]) && forall x | x in s[1..] :: x in s
  {
    HeadGone(s);
    HeadGone(t);
  }

  lemma HeadGone<T>(s: seq<T>)
    requires s != []
    ensures multiset(s[1..]) == multiset(s) - multiset{s[0]}
  {
    assert s == [s[0]] + s[1..];
  }

  lemma SortedHead<T(!new)>(s: seq<T>, t: seq<T>, less: (T, T) -> bool)
    requires Sorted(s, less) && Sorted(t, less) && s != [] && t != []
    requires forall x :: x in s <==> x in t
    requires forall x, y | x in s && y in s && x != y :: less(x, y) || less(y, x)
    ensures s[0] == t[0]
  {
    assert s[0] in t && t[0] in s;
  }

  /** Two orderings of the same elements sort alike exactly when they list alike the elements that tie:
      `tied` elements all tie with each other, every other pair is decided by `less`. */
  lemma SortEqualIffTiesEqual<T(!new)>(xs: seq<T>, ys: seq<T>, less: (T, T) -> bool, tied: T -> bool)
    requires WeakOrder(less) && multiset(xs) == multiset(ys)
    requires forall x, y | x in xs && y in xs && tied(x) && tied(y) :: !less(x, y)
    requires forall x, y | x in xs && y in xs && x != y && !(tied(x) && tied(y)) :: less(x, y) || less(y, x)
    ensures SortBy(xs, less) == SortBy(ys, less) <==> Filter(xs, tied) == Filter(ys, tied)
  {
    SameElements(xs, ys);
    TiedUntouched(xs, less, tied);
    TiedUntouched(ys, less, tied);
    if Filter(xs, tied) == Filter(ys, tied) {
      SortBySorts(xs, less);
      SortBySorts(ys, less);
      SameElements(xs, SortBy(xs, less));
      SortedUniqueWithTies(SortBy(xs, less), SortBy(ys, less), less, tied);
    }
  }

  lemma TiedUntouched<T(!new)>(xs: seq<T>, less: (T, T) -> bool, tied: T -> bool)
    requires WeakOrder(less)
    requires forall x, y | x in xs && y in xs && tied(x) && tied(y) :: !less(x, y)
    ensures Filter(SortBy(xs, less), tied) == Filter(xs, tied)
  {
    SortByFilter(xs, less, tied);
    FilterMembers(xs, tied);
    var kept := Filter(xs, tied);
    forall i, j | 0 <= i < j < |kept| ensures !less(kept[j], kept[i]) {
      assert kept[i] in kept && kept[j] in kept;
    }
    SortBySorted(kept, less);
  }

  lemma {:induction false} SortedUniqueWithTies<T(!new)>(s: seq<T>, t: seq<T>, less: (T, T) -> bool, tied: T -> bool)
    requires Sorted(s, less) && Sorted(t, less) && multiset(s) == multiset(t)
    requires forall x, y | x in s && y in s && x != y && !(tied(x) && tied(y)) :: less(x, y) || less(y, x)
    requires Filter(s, tied) == Filter(t, tied)
    ensures s == t
  {
    SameElements(s, t);
    if s != [] {
      SortedHeadWithTies(s, t, less, tied);
      TailsAgree(s, t);
      SortedTail(s, less);
      SortedTail(t, less);
      FilterTail(s, tied);
      FilterTail(t, tied);
      SortedUniqueWithTies(s[1..], t[1..], less, tied);
      assert s == [s[0]] + s[1..] && t == [t[0]] + t[1..];
    }
  }

  lemma FilterTail<T>(s: seq<T>, keep: T -> bool)
    requires s != []
    ensures Filter(s[1..], keep) == if keep(s[0]) then Filter(s, keep)[1..] else Filter(s, keep)
  {
  }

  lemma SortedHeadWithTies<T(!new)>(s: seq<T>, t: seq<T>, less: (T, T) -> bool, tied: T -> bool)
    requires Sorted(s, less) && Sorted(t, less) && s != [] && t != []
    requires forall x :: x in s <==> x in t
    requires forall x, y | x in s && y in s && x != y && !(tied(x) && tied(y)) :: less(x, y) || less(y, x)
    requires Filter(s, tied) == Filter(t, tied)
    ensures s[0] == t[0]
  {
    assert s[0] in t && t[0] in s;
    if tied(s[0]) && tied(t[0]) {
      assert Filter(s, tied)[0] == s[0] && Filter(t, tied)[0] == t[0];
    }
  }

  lemma SortedTail<T>(s: seq<T>, less: (T, T) -> bool)
    requires Sorted(s, less) && s != []
    ensures Sorted(s[1..], less)
  {
    forall i, j | 0 <= i < j < |s[1..]| ensures !less(s[1..][j], s[1..][i]) {
      assert !less(s[j + 1], s[i + 1]);
    }
  }
}

/** Names compared bytewise, as Rust compares strings. */
module Bytewise {
  import opened Sorting

  predicate Less(a: string, b: string) {
    b != [] && (a == [] || a[0] < b[0] || (a[0] == b[0] && Less(a[1..], b[1..])))
  }

  lemma {:induction false} LessTrichotomy(a: string, b: string)
    ensures a != b ==> Less(a, b) || Less(b, a)
    ensures !(Less(a, b) && Less(b, a)) && !Less(a, a)
  {
    if a != [] { LessTrichotomy(a[1..], a[1..]); }
    if a != [] && b != [] && a[0] == b[0] {
      LessTrichotomy(a[1..], b[1..]);
      assert a == [a[0]] + a[1..] && b == [b[0]] + b[1..];
    }
  }

  lemma {:induction false} LessTransitive(a: string, b: string, c: string)
    requires Less(a, b) && Less(b, c)
    ensures Less(a, c)
  {
    if a != [] && a[0] == b[0] == c[0] {
      LessTransitive(a[1..], b[1..], c[1..]);
    }
  }

  /** Bytewise order: one name extends the other, or the first difference decides. */
  lemma {:induction false} LessIff(a: string, b: string)
    ensures Less(a, b) <==>
      || (|a| < |b| && b[..|a|] == a)
      || exists i: nat | i < |a| && i < |b| :: a[..i] == b[..i] && a[i] < b[i]
  {
    if a != [] && b != [] && a[0] == b[0] {
      LessIff(a[1..], b[1..]);
      assert a == [a[0]] + a[1..] && b == [b[0]] + b[1..];
      if i: nat :| i < |a| - 1 && i < |b| - 1 && a[1..][..i] == b[1..][..i] && a[1..][i] < b[1..][i] {
        assert a[..i + 1] == [a[0]] + a[1..][..i] && b[..i + 1] == [b[0]] + b[1..][..i];
        assert a[i + 1] < b[i + 1];
      }
      if i: nat :| i < |a| && i < |b| && a[..i] == b[..i] && a[i] < b[i] {
        assert a[1..][..i - 1] == a[..i][1..] && b[1..][..i - 1] == b[..i][1..];
        assert a[1..][i - 1] < b[1..][i - 1];
      }
    } else if a != [] && b != [] {
      assert a[..0] == b[..0];
    }
  }

  lemma LessWeakOrder()
    ensures WeakOrder(Less)
    ensures forall a, b :: a != b ==> Less(a, b) || Less(b, a)
  {
    forall a ensures !Less(a, a) { LessTrichotomy(a, a); }
    forall a, b, c | Less(a, b) && Less(b, c) ensures Less(a, c) { LessTransitive(a, b, c); }
    forall a, b | a != b ensures Less(a, b) || Less(b, a) { LessTrichotomy(a, b); }
    forall a, b, c | Less(a, b) ensures Less(a, c) || Less(c, b) {
      LessTrichotomy(a, c);
      if !Less(a, c) && a != c { LessTransitive(c, a, b); }
    }
  }

  /** Comparing two slash-terminated names differs from comparing the names exactly here: `a` is a
      proper prefix of `b`, which continues with a character sorting before the slash. */
  predicate SlashClash(a: string, b: string) {
    |a| < |b| && b[..|a|] == a && b[|a|] < '/'
  }

  lemma {:induction false} SlashOrder(a: string, b: string)
    requires a != b && '/' !in a && '/' !in b
    ensures Less(a + "/", b + "/") <==> (Less(a, b) && !SlashClash(a, b)) || SlashClash(b, a)
    ensures SlashClash(a, b) ==> Less(a, b)
  {
    var x, y := a + "/", b + "/";
    if a != [] && b != [] {
      assert x[1..] == a[1..] + "/" && y[1..] == b[1..] + "/";
      if a[0] == b[0] {
        assert a == [a[0]] + a[1..] && b == [b[0]] + b[1..];
        SlashOrder(a[1..], b[1..]);
        ClashTail(a, b);
        ClashTail(b, a);
      }
    } else if a == [] {
      assert x == "/" && b[0] in b && y[0] == b[0];
      LessTrichotomy([], b);
    } else {
      assert y == "/" && a[0] in a && x[0] == a[0];
      LessTrichotomy(a, []);
    }
  }

  lemma ClashTail(a: string, b: string)
    requires a != [] && b != [] && a[0] == b[0]
    ensures SlashClash(a, b) <==> SlashClash(a[1..], b[1..])
  {
    if |a| < |b| {
      assert b[1..][..|a| - 1] == b[..|a|][1..];
      if b[1..][..|a| - 1] == a[1..] {
        assert b[..|a|] == [b[0]] + b[..|a|][1..] == [a[0]] + a[1..] == a;
      }
    }
  }
}
