/**
 * Generic sequence operations that stand for the dataframe primitives the
 * pipeline uses: `unique()` (Distinct), boolean-mask filtering (Filter),
 * `sort_values` (SortWith), `min` (Min), `argsort()[0]` (FirstArgMin) and
 * `pd.concat` (Concat).
 */
module Collections {

  datatype Option<+T> = None | Some(value: T)

  ghost predicate NoDuplicates<T(!new)>(s: seq<T>) {
    forall i, j :: 0 <= i < j < |s| ==> s[i] != s[j]
  }

  /** `unique()`: the distinct elements of `s` in order of first appearance. */
  function Distinct<T(==,!new)>(s: seq<T>): (r: seq<T>)
    ensures forall x :: x in r <==> x in s
    ensures NoDuplicates(r)
    ensures |r| <= |s|
    decreases |s|
  {
    if |s| == 0 then []
    else
      var p := Distinct(s[..|s| - 1]);
      if s[|s| - 1] in p then p else p + [s[|s| - 1]]
  }

  /** A sequence without repetitions is its own `unique()`. */
  lemma {:induction false} DistinctOfNoDuplicates<T(!new)>(s: seq<T>)
    requires NoDuplicates(s)
    ensures Distinct(s) == s
    decreases |s|
  {
    if |s| > 0 {
      var init := s[..|s| - 1];
      assert NoDuplicates(init);
      DistinctOfNoDuplicates(init);
      assert s[|s| - 1] !in init;
      assert init + [s[|s| - 1]] == s;
    }
  }

  /** Taking `unique()` twice is the same as taking it once. */
  lemma DistinctIdempotent<T(!new)>(s: seq<T>)
    ensures Distinct(Distinct(s)) == Distinct(s)
  {
    DistinctOfNoDuplicates(Distinct(s));
  }

  /** The first element of `s` comes first in `unique()`. */
  lemma {:induction false} DistinctHead<T(!new)>(s: seq<T>)
    requires |s| > 0
    ensures |Distinct(s)| > 0 && Distinct(s)[0] == s[0]
    decreases |s|
  {
    var init := s[..|s| - 1];
    if |init| == 0 {
      assert Distinct(s) == Distinct(init) + [s[0]];
    } else {
      DistinctHead(init);
    }
  }

  /**
   * `unique()` lists values by first appearance: an earlier value of the
   * result first appears in `s` before every appearance of a later one.
   */
  lemma {:induction false} DistinctFirstAppearance<T(!new)>(s: seq<T>, i: int, j: int)
    requires 0 <= i < j < |Distinct(s)|
    ensures exists a ::
      0 <= a < |s| && s[a] == Distinct(s)[i] &&
      forall b :: 0 <= b < |s| && s[b] == Distinct(s)[j] ==> a < b
    decreases |s|
  {
    var n := |s|;
    var init := s[..n - 1];
    var p := Distinct(init);
    if j < |p| {
      assert Distinct(s)[i] == p[i] && Distinct(s)[j] == p[j];
      DistinctFirstAppearance(init, i, j);
      var a :| 0 <= a < |init| && init[a] == p[i] &&
        forall b :: 0 <= b < |init| && init[b] == p[j] ==> a < b;
      assert s[a] == p[i];
      forall b | 0 <= b < n && s[b] == p[j] ensures a < b {
        if b < n - 1 {
          assert init[b] == s[b];
        }
      }
    } else {
      assert Distinct(s) == p + [s[n - 1]];
      assert Distinct(s)[i] == p[i] && p[i] in init;
      var a :| 0 <= a < |init| && init[a] == p[i];
      assert s[a] == p[i];
      forall b | 0 <= b < n && s[b] == Distinct(s)[j] ensures a < b {
        if b < n - 1 {
          assert init[b] == s[b];
        }
      }
    }
  }

  /** The set of the elements of a sequence. */
  ghost function Elements<T(!new)>(s: seq<T>): set<T> {
    set x | x in s
  }

  lemma {:induction false} NoDuplicatesCard<T(!new)>(r: seq<T>)
    requires NoDuplicates(r)
    ensures |r| == |Elements(r)|
    decreases |r|
  {
    if |r| > 0 {
      var init := r[..|r| - 1];
      assert NoDuplicates(init);
      NoDuplicatesCard(init);
      assert Elements(r) == Elements(init) + {r[|r| - 1]};
      assert r[|r| - 1] !in Elements(init);
    }
  }

  /** `len(s.unique())` is the number of different values of `s`. */
  lemma DistinctCard<T(!new)>(s: seq<T>)
    ensures |Distinct(s)| == |Elements(s)|
  {
    NoDuplicatesCard(Distinct(s));
    assert Elements(Distinct(s)) == Elements(s);
  }

  /** A column whose values all occur in another, with as many distinct values, has exactly its values. */
  lemma SameDistinctCount<T(!new)>(a: seq<T>, b: seq<T>)
    requires forall x :: x in a ==> x in b
    requires |Distinct(a)| == |Distinct(b)|
    ensures forall x :: x in b ==> x in a
  {
    DistinctCard(a);
    DistinctCard(b);
    var A, B := Elements(a), Elements(b);
    assert A <= B;
    assert B == A + (B - A);
    assert |B - A| == 0;
    forall x | x in b ensures x in a {
      assert x in B;
    }
  }

  lemma {:induction false} NoDuplicatesCount<T(!new)>(s: seq<T>, x: T)
    requires NoDuplicates(s)
    ensures multiset(s)[x] <= 1
    decreases |s|
  {
    if |s| > 0 {
      var init := s[..|s| - 1];
      assert NoDuplicates(init);
      NoDuplicatesCount(init, x);
      assert s == init + [s[|s| - 1]];
      assert multiset(s) == multiset(init) + multiset{s[|s| - 1]};
      if x == s[|s| - 1] {
        assert x !in init;
      }
    }
  }

  lemma TwoOccurrences<T(!new)>(a: seq<T>, i: int, j: int)
    requires 0 <= i < j < |a| && a[i] == a[j]
    ensures multiset(a)[a[i]] >= 2
  {
    assert a == a[..j] + a[j..];
    assert a[i] in a[..j] && a[j] in a[j..];
    assert multiset(a) == multiset(a[..j]) + multiset(a[j..]);
  }

  /** A rearrangement of a sequence without repetitions has none. */
  lemma MultisetNoDuplicates<T(!new)>(a: seq<T>, b: seq<T>)
    requires multiset(a) == multiset(b) && NoDuplicates(b)
    ensures NoDuplicates(a)
  {
    forall i, j | 0 <= i < j < |a| ensures a[i] != a[j] {
      if a[i] == a[j] {
        TwoOccurrences(a, i, j);
        NoDuplicatesCount(b, a[i]);
      }
    }
  }

  lemma {:induction false} FilterNoDuplicates<T(!new)>(s: seq<T>, p: T -> bool)
    requires NoDuplicates(s)
    ensures NoDuplicates(Filter(s, p))
    decreases |s|
  {
    if |s| > 0 {
      assert NoDuplicates(s[1..]);
      FilterNoDuplicates(s[1..], p);
      assert s[0] !in s[1..];
    }
  }

  /** Boolean-mask selection: the elements of `s` satisfying `p`, in order. */
  function Filter<T(!new)>(s: seq<T>, p: T -> bool): (r: seq<T>)
    ensures |r| <= |s|
    ensures forall x :: x in r <==> x in s && p(x)
    decreases |s|
  {
    if |s| == 0 then []
    else (if p(s[0]) then [s[0]] else []) + Filter(s[1..], p)
  }

  lemma {:induction false} FilterAppend<T(!new)>(a: seq<T>, b: seq<T>, p: T -> bool)
    ensures Filter(a + b, p) == Filter(a, p) + Filter(b, p)
    decreases |a|
  {
    if |a| == 0 {
      assert a + b == b;
    } else {
      assert (a + b)[0] == a[0];
      assert (a + b)[1..] == a[1..] + b;
      FilterAppend(a[1..], b, p);
    }
  }

  /** A mask no element passes selects nothing. */
  lemma FilterAllFail<T(!new)>(s: seq<T>, p: T -> bool)
    requires forall x :: x in s ==> !p(x)
    ensures Filter(s, p) == []
  {
  }

  /** Applying the same mask twice selects what applying it once does. */
  lemma {:induction false} FilterIdempotent<T(!new)>(s: seq<T>, p: T -> bool)
    ensures Filter(Filter(s, p), p) == Filter(s, p)
    decreases |s|
  {
    if |s| > 0 {
      FilterIdempotent(s[1..], p);
      var t := Filter(s, p);
      if p(s[0]) {
        assert t == [s[0]] + Filter(s[1..], p);
        assert t[0] == s[0] && t[1..] == Filter(s[1..], p);
      } else {
        assert t == Filter(s[1..], p);
      }
    }
  }

  lemma {:induction false} FilterMultiset<T(!new)>(s: seq<T>, p: T -> bool)
    ensures multiset(Filter(s, p)) <= multiset(s)
    decreases |s|
  {
    if |s| > 0 {
      FilterMultiset(s[1..], p);
      assert s == [s[0]] + s[1..];
    }
  }

  /** Some element passes the mask exactly when some position does. */
  lemma FilterNonEmpty<T(!new)>(s: seq<T>, p: T -> bool)
    ensures |Filter(s, p)| > 0 <==> exists i :: 0 <= i < |s| && p(s[i])
  {
    if |Filter(s, p)| > 0 {
      var y := Filter(s, p)[0];
      assert y in Filter(s, p);
      var i :| 0 <= i < |s| && s[i] == y;
    }
  }

  /** The first selected element is the first element of `s` that passes the mask. */
  lemma {:induction false} FilterFirst<T(!new)>(s: seq<T>, p: T -> bool)
    requires |Filter(s, p)| > 0
    ensures exists i ::
      0 <= i < |s| && s[i] == Filter(s, p)[0] && p(s[i]) &&
      forall j :: 0 <= j < i ==> !p(s[j])
    decreases |s|
  {
    if !p(s[0]) {
      FilterFirst(s[1..], p);
      var i :|
        0 <= i < |s[1..]| && s[1..][i] == Filter(s[1..], p)[0] && p(s[1..][i]) &&
        forall j :: 0 <= j < i ==> !p(s[1..][j]);
      assert s[i + 1] == s[1..][i];
      forall j | 0 <= j < i + 1 ensures !p(s[j]) {
        if j > 0 {
          assert s[j] == s[1..][j - 1];
        }
      }
    }
  }

  /** At least two elements pass the mask exactly when two positions do. */
  lemma {:induction false} FilterAtLeastTwo<T(!new)>(s: seq<T>, p: T -> bool)
    ensures |Filter(s, p)| >= 2 <==> exists i, j :: 0 <= i < j < |s| && p(s[i]) && p(s[j])
    decreases |s|
  {
    if |s| > 0 {
      var t := s[1..];
      FilterAtLeastTwo(t, p);
      if exists i, j :: 0 <= i < j < |s| && p(s[i]) && p(s[j]) {
        var i, j :| 0 <= i < j < |s| && p(s[i]) && p(s[j]);
        if i == 0 {
          assert t[j - 1] == s[j];
          assert s[j] in Filter(t, p);
        } else {
          assert p(t[i - 1]) && p(t[j - 1]);
        }
      }
      if |Filter(s, p)| >= 2 {
        if p(s[0]) {
          var y := Filter(t, p)[0];
          assert y in Filter(t, p);
          var j :| 0 <= j < |t| && t[j] == y;
          assert s[j + 1] == y;
        } else {
          var i, j :| 0 <= i < j < |t| && p(t[i]) && p(t[j]);
          assert s[i + 1] == t[i] && s[j + 1] == t[j];
        }
      }
    }
  }

  /** `le` is a total preorder: the kind of comparison `sort_values` sorts by. */
  ghost predicate TotalPreorder<T(!new)>(le: (T, T) -> bool) {
    && (forall a, b :: le(a, b) || le(b, a))
    && (forall a, b, c :: le(a, b) && le(b, c) ==> le(a, c))
  }

  ghost predicate SortedWith<T(!new)>(s: seq<T>, le: (T, T) -> bool) {
    forall i, j :: 0 <= i < j < |s| ==> le(s[i], s[j])
  }

  function Insert<T(!new)>(x: T, s: seq<T>, le: (T, T) -> bool): (r: seq<T>)
    ensures |r| == |s| + 1
    ensures multiset(r) == multiset(s) + multiset{x}
    decreases |s|
  {
    if |s| == 0 then [x]
    else if le(x, s[0]) then [x] + s
    else
      assert s == [s[0]] + s[1..];
      [s[0]] + Insert(x, s[1..], le)
  }

  /** `sort_values`: an insertion sort; it keeps equal elements in input order. */
  function SortWith<T(!new)>(s: seq<T>, le: (T, T) -> bool): (r: seq<T>)
    ensures |r| == |s|
    ensures multiset(r) == multiset(s)
    decreases |s|
  {
    if |s| == 0 then []
    else
      assert s == [s[0]] + s[1..];
      Insert(s[0], SortWith(s[1..], le), le)
  }

  lemma {:induction false} InsertSorted<T(!new)>(x: T, s: seq<T>, le: (T, T) -> bool)
    requires TotalPreorder(le) && SortedWith(s, le)
    ensures SortedWith(Insert(x, s, le), le)
    decreases |s|
  {
    if |s| > 0 && !le(x, s[0]) {
      InsertSorted(x, s[1..], le);
      var r := Insert(x, s[1..], le);
      forall y | y in r ensures le(s[0], y) {
        assert y in multiset(r);
        if y != x {
          assert y in multiset(s[1..]);
        }
      }
    }
  }

  /** Sorting keeps exactly the rows it was given. */
  lemma InSortWith<T(!new)>(s: seq<T>, le: (T, T) -> bool, x: T)
    ensures x in SortWith(s, le) <==> x in s
  {
    assert x in SortWith(s, le) <==> x in multiset(SortWith(s, le));
  }

  lemma {:induction false} SortWithSorted<T(!new)>(s: seq<T>, le: (T, T) -> bool)
    requires TotalPreorder(le)
    ensures SortedWith(SortWith(s, le), le)
    decreases |s|
  {
    if |s| > 0 {
      SortWithSorted(s[1..], le);
      InsertSorted(s[0], SortWith(s[1..], le), le);
    }
  }

  /** Selecting rows of a sorted sequence keeps it sorted. */
  lemma {:induction false} FilterSorted<T(!new)>(s: seq<T>, p: T -> bool, le: (T, T) -> bool)
    requires SortedWith(s, le)
    ensures SortedWith(Filter(s, p), le)
    decreases |s|
  {
    if |s| > 0 {
      assert SortedWith(s[1..], le);
      FilterSorted(s[1..], p, le);
      forall y | y in Filter(s[1..], p) ensures le(s[0], y) {
        var k :| 0 <= k < |s[1..]| && s[1..][k] == y;
        assert s[k + 1] == y;
      }
    }
  }

  /** `min` of a non-empty column. */
  function Min(s: seq<int>): (m: int)
    requires |s| > 0
    ensures m in s
    ensures forall x :: x in s ==> m <= x
    decreases |s|
  {
    if |s| == 1 then s[0]
    else
      var m := Min(s[1..]);
      assert s == [s[0]] + s[1..];
      if s[0] <= m then s[0] else m
  }

  /** `max` of a non-empty column. */
  function Max(s: seq<int>): (m: int)
    requires |s| > 0
    ensures m in s
    ensures forall x :: x in s ==> x <= m
    decreases |s|
  {
    if |s| == 1 then s[0]
    else
      var m := Max(s[1..]);
      assert s == [s[0]] + s[1..];
      if s[0] >= m then s[0] else m
  }

  /** `np.argmax`: the first position holding the maximum. */
  function FirstArgMax(s: seq<int>): (i: nat)
    requires |s| > 0
    ensures i < |s|
    ensures forall k :: 0 <= k < |s| ==> s[k] <= s[i]
    ensures forall k :: 0 <= k < i ==> s[k] < s[i]
    decreases |s|
  {
    if |s| == 1 then 0
    else
      var j := FirstArgMax(s[..|s| - 1]);
      if s[|s| - 1] > s[j] then |s| - 1 else j
  }

  /** `argsort()[0]` with ties resolved towards the first position. */
  function FirstArgMin(s: seq<int>): (i: nat)
    requires |s| > 0
    ensures i < |s|
    ensures forall k :: 0 <= k < |s| ==> s[i] <= s[k]
    ensures forall k :: 0 <= k < i ==> s[i] < s[k]
    decreases |s|
  {
    if |s| == 1 then 0
    else
      var j := FirstArgMin(s[..|s| - 1]);
      if s[|s| - 1] < s[j] then |s| - 1 else j
  }

  /** `pd.concat` of a list of frames. */
  function Concat<T(!new)>(frames: seq<seq<T>>): (r: seq<T>)
    decreases |frames|
  {
    if |frames| == 0 then [] else Concat(frames[..|frames| - 1]) + frames[|frames| - 1]
  }

  /** A row is in the concatenation exactly when it is in one of the frames. */
  lemma {:induction false} InConcat<T(!new)>(frames: seq<seq<T>>, x: T)
    ensures x in Concat(frames) <==> exists k :: 0 <= k < |frames| && x in frames[k]
    decreases |frames|
  {
    if |frames| > 0 {
      var init := frames[..|frames| - 1];
      InConcat(init, x);
      if x in Concat(init) {
        var k :| 0 <= k < |init| && x in init[k];
        assert frames[k] == init[k];
      }
      if exists k :: 0 <= k < |frames| && x in frames[k] {
        var k :| 0 <= k < |frames| && x in frames[k];
        if k < |init| {
          assert init[k] == frames[k];
        }
      }
    }
  }

  /** Concatenation of `f(x)` for every `x` of `xs`, in order: a loop that appends per element. */
  function ConcatMap<A, B>(xs: seq<A>, f: A -> seq<B>): (r: seq<B>)
    decreases |xs|
  {
    if |xs| == 0 then [] else ConcatMap(xs[..|xs| - 1], f) + f(xs[|xs| - 1])
  }

  lemma {:induction false} InConcatMap<A, B>(xs: seq<A>, f: A -> seq<B>, y: B)
    ensures y in ConcatMap(xs, f) <==> exists k :: 0 <= k < |xs| && y in f(xs[k])
    decreases |xs|
  {
    if |xs| > 0 {
      var init := xs[..|xs| - 1];
      InConcatMap(init, f, y);
      if y in ConcatMap(init, f) {
        var k :| 0 <= k < |init| && y in f(init[k]);
        assert xs[k] == init[k];
      }
      if exists k :: 0 <= k < |xs| && y in f(xs[k]) {
        var k :| 0 <= k < |xs| && y in f(xs[k]);
        if k < |init| {
          assert init[k] == xs[k];
        }
      }
    }
  }

  /** The concatenation has elements exactly when some element contributes some. */
  lemma {:induction false} ConcatMapNonEmpty<A, B>(xs: seq<A>, f: A -> seq<B>)
    ensures |ConcatMap(xs, f)| > 0 <==> exists k :: 0 <= k < |xs| && |f(xs[k])| > 0
    decreases |xs|
  {
    if |xs| > 0 {
      var init := xs[..|xs| - 1];
      ConcatMapNonEmpty(init, f);
      if exists k :: 0 <= k < |init| && |f(init[k])| > 0 {
        var k :| 0 <= k < |init| && |f(init[k])| > 0;
        assert xs[k] == init[k];
      }
      if exists k :: 0 <= k < |xs| && |f(xs[k])| > 0 {
        var k :| 0 <= k < |xs| && |f(xs[k])| > 0;
        if k < |init| {
          assert init[k] == xs[k];
        }
      }
    }
  }

  /** The first element of the first non-empty part leads the concatenation. */
  lemma {:induction false} ConcatMapHead<A, B>(xs: seq<A>, f: A -> seq<B>)
    requires |xs| > 0 && |f(xs[0])| > 0
    ensures |ConcatMap(xs, f)| > 0 && ConcatMap(xs, f)[0] == f(xs[0])[0]
    decreases |xs|
  {
    var init := xs[..|xs| - 1];
    if |init| == 0 {
      assert ConcatMap(init, f) == [];
    } else {
      assert init[0] == xs[0];
      ConcatMapHead(init, f);
    }
  }

  /** Extending the input by one element appends that element's part. */
  lemma ConcatMapStep<A, B>(xs: seq<A>, f: A -> seq<B>, i: nat)
    requires i < |xs|
    ensures ConcatMap(xs[..i + 1], f) == ConcatMap(xs[..i], f) + f(xs[i])
  {
    assert xs[..i + 1][..i] == xs[..i];
  }

  /** The same step after a fixed prefix of earlier output. */
  lemma ConcatMapStepAfter<A, B>(before: seq<B>, xs: seq<A>, f: A -> seq<B>, i: nat)
    requires i < |xs|
    ensures before + ConcatMap(xs[..i + 1], f) == (before + ConcatMap(xs[..i], f)) + f(xs[i])
  {
    ConcatMapStep(xs, f, i);
  }

  function Sum(s: seq<int>): int
    decreases |s|
  {
    if |s| == 0 then 0 else s[0] + Sum(s[1..])
  }

  /** The sum of a column lies between count * min and count * max. */
  lemma {:induction false} SumBounds(s: seq<int>, lo: int, hi: int)
    requires forall x :: x in s ==> lo <= x <= hi
    ensures |s| * lo <= Sum(s) <= |s| * hi
    decreases |s|
  {
    if |s| > 0 {
      assert s[0] in s;
      forall x | x in s[1..] ensures lo <= x <= hi {
        assert x in s;
      }
      SumBounds(s[1..], lo, hi);
      assert |s| * lo == lo + (|s| - 1) * lo;
      assert |s| * hi == hi + (|s| - 1) * hi;
    }
  }
}
