/** The byte-wise order that Go uses to compare strings, and what a call to the
    library's `sort.Slice` promises: a sorted permutation of its input.
 */
module Ordering {

  /** Lexicographic "less than or equal" on strings. */
  predicate LexLe(a: string, b: string)
  {
    if a == [] then true
    else if b == [] then false
    else if a[0] == b[0] then LexLe(a[1..], b[1..])
    else a[0] < b[0]
  }

  predicate LexLess(a: string, b: string)
  {
    LexLe(a, b) && a != b
  }

  lemma {:induction false} LexTotal(a: string, b: string)
    ensures LexLe(a, b) || LexLe(b, a)
  {
    if a != [] && b != [] {
      LexTotal(a[1..], b[1..]);
    }
  }

  lemma {:induction false} LexAntisymmetric(a: string, b: string)
    requires LexLe(a, b) && LexLe(b, a)
    ensures a == b
  {
    if a != [] && b != [] {
      LexAntisymmetric(a[1..], b[1..]);
      assert a == [a[0]] + a[1..] && b == [b[0]] + b[1..];
    }
  }

  lemma {:induction false} LexTransitive(a: string, b: string, c: string)
    requires LexLe(a, b) && LexLe(b, c)
    ensures LexLe(a, c)
  {
    if a != [] && b != [] && c != [] && a[0] == b[0] == c[0] {
      LexTransitive(a[1..], b[1..], c[1..]);
    }
  }

  /** A string precedes all of its extensions. */
  lemma {:induction false} LexPrefix(a: string, b: string)
    requires a <= b
    ensures LexLe(a, b)
  {
    if a != [] {
      LexPrefix(a[1..], b[1..]);
    }
  }

  /** Strings that are no extensions of one another keep their order when extended. */
  lemma {:induction false} LexExtend(a: string, b: string, x: string, y: string)
    requires LexLe(a, b) && !(a <= b)
    ensures LexLe(a + x, b + y)
  {
    assert a != [] && b != [];
    assert (a + x)[1..] == a[1..] + x && (b + y)[1..] == b[1..] + y;
    if a[0] == b[0] {
      assert a[1..] <= b[1..] ==> a <= b by {
        assert a == [a[0]] + a[1..] && b == [b[0]] + b[1..];
      }
      LexExtend(a[1..], b[1..], x, y);
    }
  }

  /** Anything from `p` upwards that does not extend `p` is above every extension of `p`. */
  lemma {:induction false} LexBeyondPrefix(p: string, b: string, c: string)
    requires LexLe(p, b) && !(p <= b) && p <= c
    ensures LexLe(c, b) && c != b
  {
    assert p != [] && b != [];
    if p[0] == b[0] {
      assert p[1..] <= b[1..] ==> p <= b by {
        assert p == [p[0]] + p[1..] && b == [b[0]] + b[1..];
      }
      LexBeyondPrefix(p[1..], b[1..], c[1..]);
    }
  }

  ghost predicate TotalPreorder<T(!new)>(le: (T, T) -> bool)
  {
    && (forall a, b :: le(a, b) || le(b, a))
    && (forall a, b, c :: le(a, b) && le(b, c) ==> le(a, c))
  }

  ghost predicate TotalOrder<T(!new)>(le: (T, T) -> bool)
  {
    TotalPreorder(le) && forall a, b :: le(a, b) && le(b, a) ==> a == b
  }

  predicate SortedBy<T>(le: (T, T) -> bool, xs: seq<T>)
  {
    forall i, j :: 0 <= i < j < |xs| ==> le(xs[i], xs[j])
  }

  lemma LexIsTotalOrder()
    ensures TotalOrder(LexLe)
  {
    forall a, b ensures LexLe(a, b) || LexLe(b, a) { LexTotal(a, b); }
    forall a, b, c | LexLe(a, b) && LexLe(b, c) ensures LexLe(a, c) { LexTransitive(a, b, c); }
    forall a, b | LexLe(a, b) && LexLe(b, a) ensures a == b { LexAntisymmetric(a, b); }
  }

  function Insert<T>(le: (T, T) -> bool, x: T, xs: seq<T>): (ys: seq<T>)
    ensures multiset(ys) == multiset(xs) + multiset{x}
    ensures |ys| == |xs| + 1
  {
    if xs == [] then [x]
    else if le(x, xs[0]) then [x] + xs
    else
      assert xs == [xs[0]] + xs[1..];
      [xs[0]] + Insert(le, x, xs[1..])
  }

  /** The model of `sort.Slice`. */
  function Sort<T>(le: (T, T) -> bool, xs: seq<T>): (ys: seq<T>)
    ensures multiset(ys) == multiset(xs)
    ensures |ys| == |xs|
  {
    if xs == [] then []
    else
      assert xs == [xs[0]] + xs[1..];
      Insert(le, xs[0], Sort(le, xs[1..]))
  }

  lemma {:induction false} InsertSorted<T(!new)>(le: (T, T) -> bool, x: T, xs: seq<T>)
    requires TotalPreorder(le) && SortedBy(le, xs)
    ensures SortedBy(le, Insert(le, x, xs))
  {
    if xs != [] && !le(x, xs[0]) {
      InsertSorted(le, x, xs[1..]);
      var rest := Insert(le, x, xs[1..]);
      forall j | 0 <= j < |rest| ensures le(xs[0], rest[j]) {
        assert rest[j] in multiset(xs[1..]) + multiset{x};
      }
    }
  }

  lemma {:induction false} SortSorts<T(!new)>(le: (T, T) -> bool, xs: seq<T>)
    requires TotalPreorder(le)
    ensures SortedBy(le, Sort(le, xs))
  {
    if xs != [] {
      SortSorts(le, xs[1..]);
      InsertSorted(le, xs[0], Sort(le, xs[1..]));
    }
  }

  /** A total order leaves a sort no choice: whatever algorithm is used and whatever
      order its input came in, the sorted permutation is the same. */
  lemma {:induction false} SortedUnique<T(!new)>(le: (T, T) -> bool, xs: seq<T>, ys: seq<T>)
    requires TotalOrder(le) && SortedBy(le, xs) && SortedBy(le, ys)
    requires multiset(xs) == multiset(ys)
    ensures xs == ys
  {
    UntiedUnique(le, xs, ys);
  }

  /** Elements that the order does not tell apart are equal. */
  ghost predicate Untied<T>(le: (T, T) -> bool, xs: seq<T>)
  {
    forall i, j :: 0 <= i < |xs| && 0 <= j < |xs| && le(xs[i], xs[j]) && le(xs[j], xs[i]) ==> xs[i] == xs[j]
  }

  /** It is enough that the elements at hand are not tied. */
  lemma {:induction false} UntiedUnique<T(!new)>(le: (T, T) -> bool, xs: seq<T>, ys: seq<T>)
    requires TotalPreorder(le) && Untied(le, xs) && SortedBy(le, xs) && SortedBy(le, ys)
    requires multiset(xs) == multiset(ys)
    ensures xs == ys
  {
    SameLength(xs, ys);
    if xs != [] {
      SameHead(le, xs, ys);
      SameTails(xs, ys);
      TailSorted(le, xs);
      TailSorted(le, ys);
      UntiedUnique(le, xs[1..], ys[1..]);
    }
  }

  lemma {:induction false} SameTails<T>(xs: seq<T>, ys: seq<T>)
    requires multiset(xs) == multiset(ys) && xs != [] && ys != [] && xs[0] == ys[0]
    ensures multiset(xs[1..]) == multiset(ys[1..])
    ensures xs[1..] == ys[1..] ==> xs == ys
  {
    TailMultiset(xs);
    TailMultiset(ys);
    assert xs == [xs[0]] + xs[1..] && ys == [ys[0]] + ys[1..];
  }

  lemma {:induction false} TailSorted<T>(le: (T, T) -> bool, xs: seq<T>)
    requires xs != [] && SortedBy(le, xs)
    ensures SortedBy(le, xs[1..])
    ensures Untied(le, xs) ==> Untied(le, xs[1..])
  {
  }

  lemma {:induction false} SameLength<T>(xs: seq<T>, ys: seq<T>)
    requires multiset(xs) == multiset(ys)
    ensures |xs| == |ys|
  {
    assert |multiset(xs)| == |xs| && |multiset(ys)| == |ys|;
  }

  lemma {:induction false} SameHead<T(!new)>(le: (T, T) -> bool, xs: seq<T>, ys: seq<T>)
    requires TotalPreorder(le) && Untied(le, xs) && SortedBy(le, xs) && SortedBy(le, ys)
    requires multiset(xs) == multiset(ys) && xs != [] && ys != []
    ensures xs[0] == ys[0]
  {
    assert xs[0] in multiset(ys) && ys[0] in multiset(xs);
    var i :| 0 <= i < |ys| && ys[i] == xs[0];
    var j :| 0 <= j < |xs| && xs[j] == ys[0];
    assert le(xs[0], xs[0]) && le(ys[0], ys[0]);
    assert le(ys[0], xs[0]) && le(xs[0], xs[j]);
  }

  lemma TailMultiset<T>(xs: seq<T>)
    requires xs != []
    ensures multiset(xs[1..]) == multiset(xs) - multiset{xs[0]}
  {
    assert xs == [xs[0]] + xs[1..];
  }

  ghost predicate Distinct<T>(xs: seq<T>)
  {
    forall i, j :: 0 <= i < |xs| && 0 <= j < |xs| && xs[i] == xs[j] ==> i == j
  }

  lemma {:induction false} DistinctGrows<T>(xs: seq<T>, x: T)
    requires Distinct(xs) && x !in xs
    ensures Distinct(xs + [x])
  {
    forall i, j | 0 <= i <= |xs| && 0 <= j <= |xs| && (xs + [x])[i] == (xs + [x])[j] ensures i == j {
      assert i < |xs| ==> xs[i] in xs;
      assert j < |xs| ==> xs[j] in xs;
    }
  }

  lemma {:induction false} DistinctCount<T>(xs: seq<T>, v: T)
    requires Distinct(xs)
    ensures multiset(xs)[v] <= 1
  {
    if xs != [] {
      var rest := xs[1..];
      assert xs == [xs[0]] + rest;
      forall i, j | 0 <= i < |rest| && 0 <= j < |rest| && rest[i] == rest[j] ensures i == j {
        assert xs[i + 1] == xs[j + 1];
      }
      DistinctCount(rest, v);
      if v == xs[0] {
        assert v !in rest;
      }
    }
  }

  lemma {:induction false} DuplicateCount<T>(ys: seq<T>, a: nat, b: nat)
    requires a < b < |ys| && ys[a] == ys[b]
    ensures multiset(ys)[ys[a]] >= 2
  {
    assert ys == ys[..b] + [ys[b]] + ys[b + 1..];
    assert ys[a] == ys[..b][a];
    assert ys[a] in multiset(ys[..b]);
  }

  /** A permutation of distinct elements is distinct. */
  lemma {:induction false} PermutationDistinct<T>(xs: seq<T>, ys: seq<T>)
    requires multiset(xs) == multiset(ys) && Distinct(xs)
    ensures forall a, b :: 0 <= a < b < |ys| ==> ys[a] != ys[b]
  {
    forall a, b | 0 <= a < b < |ys| ensures ys[a] != ys[b] {
      DistinctCount(xs, ys[a]);
      if ys[a] == ys[b] {
        DuplicateCount(ys, a, b);
      }
    }
  }

  function Mapped<T, U>(f: T -> U, xs: seq<T>): (ys: seq<U>)
    ensures |ys| == |xs| && forall i :: 0 <= i < |xs| ==> ys[i] == f(xs[i])
  {
    seq(|xs|, i requires 0 <= i < |xs| => f(xs[i]))
  }

  /** `ys` are the images of the first `n` elements. */
  ghost predicate IsMapped<T, U>(f: T -> U, xs: seq<T>, n: nat, ys: seq<U>)
  {
    n <= |xs| && |ys| == n && forall i :: 0 <= i < n ==> ys[i] == f(xs[i])
  }

  lemma {:induction false} MappedMore<T, U>(f: T -> U, xs: seq<T>, n: nat, ys: seq<U>, y: U)
    requires IsMapped(f, xs, n, ys) && n < |xs| && y == f(xs[n])
    ensures IsMapped(f, xs, n + 1, ys + [y])
  {
  }

  lemma {:induction false} MappedAll<T, U>(f: T -> U, xs: seq<T>, ys: seq<U>)
    requires IsMapped(f, xs, |xs|, ys)
    ensures ys == Mapped(f, xs)
  {
  }

  function DropAt<T>(a: seq<T>, k: nat): (r: seq<T>)
    requires k < |a|
    ensures |r| == |a| - 1
  {
    a[..k] + a[k + 1..]
  }

  lemma {:induction false} WithoutOne<T>(a: seq<T>, k: nat)
    requires k < |a|
    ensures multiset(DropAt(a, k)) == multiset(a) - multiset{a[k]}
    ensures multiset(a) == multiset(DropAt(a, k)) + multiset{a[k]}
  {
    assert a == a[..k] + ([a[k]] + a[k + 1..]);
    assert multiset(a) == multiset(a[..k]) + (multiset{a[k]} + multiset(a[k + 1..]));
    assert multiset(DropAt(a, k)) == multiset(a[..k]) + multiset(a[k + 1..]);
  }

  /** A function maps permutations to permutations. */
  lemma {:induction false} MappedCount<T, U>(f: T -> U, a: seq<T>, b: seq<T>)
    requires multiset(a) == multiset(b)
    ensures multiset(Mapped(f, a)) == multiset(Mapped(f, b))
    decreases |a|
  {
    if a == [] {
      assert |multiset(a)| == 0 && |multiset(b)| == |b|;
    } else {
      var k := PlaceOf(a[0], b) by {
        assert a[0] in multiset(b);
      }
      WithoutOne(a, 0);
      WithoutOne(b, k);
      MappedCount(f, DropAt(a, 0), DropAt(b, k));
      MappedWithout(f, a, 0);
      MappedWithout(f, b, k);
    }
  }

  lemma {:induction false} PlaceOf<T>(x: T, xs: seq<T>) returns (k: nat)
    requires x in xs
    ensures k < |xs| && xs[k] == x
  {
    k :| 0 <= k < |xs| && xs[k] == x;
  }

  lemma {:induction false} MappedWithout<T, U>(f: T -> U, a: seq<T>, k: nat)
    requires k < |a|
    ensures multiset(Mapped(f, a)) == multiset(Mapped(f, DropAt(a, k))) + multiset{f(a[k])}
  {
    var p := Mapped(f, a);
    assert Mapped(f, DropAt(a, k)) == DropAt(p, k);
    WithoutOne(p, k);
  }

  // ----- Sums ----------------------------------------------------------------------------

  function SumBy<T>(f: T -> nat, xs: seq<T>): nat
  {
    if xs == [] then 0 else SumBy(f, xs[..|xs| - 1]) + f(xs[|xs| - 1])
  }

  lemma {:induction false} SumGrows<T>(f: T -> nat, xs: seq<T>, x: T)
    ensures SumBy(f, xs + [x]) == SumBy(f, xs) + f(x)
  {
    assert (xs + [x])[..|xs|] == xs;
  }

  lemma {:induction false} SumWithout<T>(f: T -> nat, xs: seq<T>, k: nat)
    requires k < |xs|
    ensures SumBy(f, xs) == SumBy(f, DropAt(xs, k)) + f(xs[k])
  {
    var n := |xs| - 1;
    if k == n {
      assert DropAt(xs, k) == xs[..n];
    } else {
      SumWithout(f, xs[..n], k);
      assert DropAt(xs, k) == DropAt(xs[..n], k) + [xs[n]];
      SumGrows(f, DropAt(xs[..n], k), xs[n]);
    }
  }

  /** Distinct elements of a list sum up to no more than the list. */
  lemma {:induction false} SumOfFewer<T>(f: T -> nat, xs: seq<T>, ys: seq<T>)
    requires Distinct(xs) && forall x :: x in xs ==> x in ys
    ensures SumBy(f, xs) <= SumBy(f, ys) && |xs| <= |ys|
    decreases |xs|
  {
    if xs != [] {
      var n := |xs| - 1;
      var rest := xs[..n];
      assert xs[n] in xs;
      var k := PlaceOf(xs[n], ys);
      SumWithout(f, ys, k);
      forall q | q in rest ensures q in DropAt(ys, k) {
        var i := PlaceOf(q, rest);
        assert q == xs[i] && q in xs;
        StaysWithout(ys, k, q);
      }
      SumOfFewer(f, rest, DropAt(ys, k));
    }
  }

  lemma {:induction false} StaysWithout<T>(ys: seq<T>, k: nat, q: T)
    requires k < |ys| && q in ys && q != ys[k]
    ensures q in DropAt(ys, k)
  {
    var j := PlaceOf(q, ys);
    assert q == (if j < k then DropAt(ys, k)[j] else DropAt(ys, k)[j - 1]);
  }

  ghost predicate StrictlySorted(xs: seq<string>)
  {
    forall i, j :: 0 <= i < j < |xs| ==> LexLess(xs[i], xs[j])
  }

  /** A set of strings has one strictly sorted listing. */
  lemma {:induction false} StrictlySortedUnique(xs: seq<string>, ys: seq<string>)
    requires StrictlySorted(xs) && StrictlySorted(ys)
    requires forall s :: s in xs <==> s in ys
    ensures xs == ys
  {
    assert |ys| > 0 ==> ys[0] in xs;
    if xs != [] {
      assert xs[0] in ys;
      if xs[0] != ys[0] {
        LexAntisymmetric(xs[0], ys[0]);
      }
      forall s ensures s in xs[1..] <==> s in ys[1..] {
        assert s in xs <==> s == xs[0] || s in xs[1..];
        assert s in ys <==> s == ys[0] || s in ys[1..];
        assert xs[0] !in xs[1..] && ys[0] !in ys[1..];
      }
      StrictlySortedUnique(xs[1..], ys[1..]);
      assert xs == [xs[0]] + xs[1..] && ys == [ys[0]] + ys[1..];
    }
  }

  /** `sort.Search` for the first key that is not below `key`. */
  method LowerBound(keys: seq<string>, key: string) returns (k: nat)
    requires StrictlySorted(keys)
    ensures k <= |keys|
    ensures forall i :: 0 <= i < k ==> LexLess(keys[i], key)
    ensures forall i :: k <= i < |keys| ==> LexLe(key, keys[i])
  {
    var low, high := 0, |keys|;
    while low < high
      invariant 0 <= low <= high <= |keys|
      invariant forall i :: 0 <= i < low ==> LexLess(keys[i], key)
      invariant forall i :: high <= i < |keys| ==> LexLe(key, keys[i])
    {
      var middle := (low + high) / 2;
      LexTotal(key, keys[middle]);
      forall i | 0 <= i < |keys| ensures
        && (i <= middle && !LexLe(key, keys[middle]) ==> LexLess(keys[i], key))
        && (middle <= i && LexLe(key, keys[middle]) ==> LexLe(key, keys[i]))
      {
        if i < middle && !LexLe(key, keys[middle]) {
          LexTransitive(keys[i], keys[middle], key);
        } else if middle < i && LexLe(key, keys[middle]) {
          LexTransitive(key, keys[middle], keys[i]);
        }
      }
      if LexLe(key, keys[middle]) {
        high := middle;
      } else {
        low := middle + 1;
      }
    }
    k := low;
  }

  /** Strings that differ within their first `|a| == |b|` characters stay apart, and in
      order, when extended. */
  lemma {:induction false} LexApart(a: string, b: string, u: string, v: string)
    requires |a| == |b| && LexLess(a, b) && a <= u && b <= v
    ensures LexLess(u, v) && !(u <= v) && !(v <= u)
  {
    assert !(a <= b);
    LexExtend(a, b, u[|a|..], v[|b|..]);
    assert u == a + u[|a|..] && v == b + v[|b|..];
    assert u[..|a|] == a && v[..|b|] == b;
  }

  // ----- Sorting by several texts --------------------------------------------------------

  /** Comparison field by field. */
  predicate FieldsLe(a: seq<string>, b: seq<string>)
  {
    if a == [] then true
    else if b == [] then false
    else if a[0] == b[0] then FieldsLe(a[1..], b[1..])
    else LexLe(a[0], b[0])
  }

  lemma {:induction false} FieldsTotal(a: seq<string>, b: seq<string>)
    ensures FieldsLe(a, b) || FieldsLe(b, a)
    ensures FieldsLe(a, b) && FieldsLe(b, a) ==> a == b
  {
    if a != [] && b != [] {
      FieldsTotal(a[1..], b[1..]);
      LexTotal(a[0], b[0]);
      if FieldsLe(a, b) && FieldsLe(b, a) {
        if a[0] != b[0] {
          LexAntisymmetric(a[0], b[0]);
        }
        assert a == [a[0]] + a[1..] && b == [b[0]] + b[1..];
      }
    }
  }

  lemma {:induction false} FieldsTransitive(a: seq<string>, b: seq<string>, c: seq<string>)
    requires FieldsLe(a, b) && FieldsLe(b, c)
    ensures FieldsLe(a, c)
  {
    if a != [] && b != [] && c != [] {
      if a[0] == b[0] == c[0] {
        FieldsTransitive(a[1..], b[1..], c[1..]);
      } else {
        LexTotal(a[0], a[0]);
        LexTotal(b[0], b[0]);
        LexTransitive(a[0], b[0], c[0]);
        if a[0] == c[0] {
          LexAntisymmetric(a[0], b[0]);
        }
      }
    }
  }

  /** The order by the fields that `key` lists. */
  function By<T>(key: T -> seq<string>): (T, T) -> bool
  {
    (x, y) => FieldsLe(key(x), key(y))
  }

  lemma {:induction false} ByIsPreorder<T(!new)>(key: T -> seq<string>)
    ensures TotalPreorder(By(key))
  {
    var le := By(key);
    forall a, b ensures le(a, b) || le(b, a) { FieldsTotal(key(a), key(b)); }
    forall a, b, c | le(a, b) && le(b, c) ensures le(a, c) { FieldsTransitive(key(a), key(b), key(c)); }
  }

  /** Elements with the same fields are equal: sorting has no choice. */
  ghost predicate Told<T>(key: T -> seq<string>, xs: seq<T>)
  {
    forall i, j :: 0 <= i < |xs| && 0 <= j < |xs| && key(xs[i]) == key(xs[j]) ==> xs[i] == xs[j]
  }

  lemma {:induction false} ToldOfAny<T>(key: T -> seq<string>, xs: seq<T>, ys: seq<T>)
    requires Told(key, xs) && multiset(ys) == multiset(xs)
    ensures Told(key, ys) && Untied(By(key), ys)
  {
    forall i, j | 0 <= i < |ys| && 0 <= j < |ys|
      ensures key(ys[i]) == key(ys[j]) ==> ys[i] == ys[j]
      ensures By(key)(ys[i], ys[j]) && By(key)(ys[j], ys[i]) ==> ys[i] == ys[j]
    {
      assert ys[i] in multiset(xs) && ys[j] in multiset(xs);
      FieldsTotal(key(ys[i]), key(ys[j]));
    }
  }

  /** Whatever sorted permutation a sort delivers, it is this one. */
  lemma {:induction false} OneSortedForm<T(!new)>(key: T -> seq<string>, xs: seq<T>, ys: seq<T>)
    requires Told(key, xs) && multiset(ys) == multiset(xs) && SortedBy(By(key), ys)
    ensures ys == Sort(By(key), xs)
  {
    ByIsPreorder(key);
    SortSorts(By(key), xs);
    ToldOfAny(key, xs, ys);
    UntiedUnique(By(key), ys, Sort(By(key), xs));
  }

  /** The order of the input does not matter. */
  lemma {:induction false} SortIgnoresOrder<T(!new)>(key: T -> seq<string>, xs: seq<T>, ys: seq<T>)
    requires Told(key, xs) && multiset(ys) == multiset(xs)
    ensures Sort(By(key), ys) == Sort(By(key), xs)
  {
    ByIsPreorder(key);
    SortSorts(By(key), ys);
    OneSortedForm(key, xs, Sort(By(key), ys));
  }

  lemma {:induction false} SortTwice<T(!new)>(key: T -> seq<string>, xs: seq<T>)
    requires Told(key, xs)
    ensures Sort(By(key), Sort(By(key), xs)) == Sort(By(key), xs)
  {
    SortIgnoresOrder(key, xs, Sort(By(key), xs));
  }

  // ----- Listing a set -------------------------------------------------------------------

  predicate IsLeast(k: string, s: set<string>)
  {
    k in s && forall x :: x in s ==> LexLe(k, x)
  }

  lemma {:induction false} LeastOfMore(k: string, m: string, s: set<string>)
    requires k in s && IsLeast(m, s - {k})
    ensures IsLeast(if LexLe(k, m) then k else m, s)
  {
    LexTotal(k, m);
    LexTotal(k, k);
    forall x | x in s ensures LexLe(if LexLe(k, m) then k else m, x) {
      if x != k && LexLe(k, m) {
        LexTransitive(k, m, x);
      }
    }
  }

  lemma {:induction false} LeastExists(s: set<string>)
    requires s != {}
    ensures exists k :: IsLeast(k, s)
  {
    var k :| k in s;
    if s == {k} {
      LexTotal(k, k);
      assert IsLeast(k, s);
    } else {
      LeastExists(s - {k});
      var m :| IsLeast(m, s - {k});
      LeastOfMore(k, m, s);
    }
  }

  function Least(s: set<string>): (k: string)
    requires s != {}
    ensures IsLeast(k, s)
  {
    LeastExists(s);
    assert forall a, b :: IsLeast(a, s) && IsLeast(b, s) ==> a == b by { LexIsTotalOrder(); }
    var k :| IsLeast(k, s);
    k
  }

  /** The elements of a set, sorted: what collecting the keys of a map and sorting them gives. */
  function Listing(s: set<string>): (r: seq<string>)
    ensures forall x :: x in r <==> x in s
  {
    if s == {} then [] else [Least(s)] + Listing(s - {Least(s)})
  }

  lemma {:induction false} ListingIsSorted(s: set<string>)
    ensures StrictlySorted(Listing(s))
  {
    if s != {} {
      var rest := Listing(s - {Least(s)});
      ListingIsSorted(s - {Least(s)});
      forall j | 0 <= j < |rest| ensures LexLess(Least(s), rest[j]) {
        assert rest[j] in rest;
      }
    }
  }
}
