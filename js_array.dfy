/**
 * The JavaScript array operations the frontend composes: filter, find, some and
 * a comparator sort. Array.prototype.sort is stable; it is written here as an
 * insertion sort that inserts each element after every element it does not sort
 * before, which is the unique stable ordering for a consistent comparator.
 */
module JsArray {
  import opened Wrappers

  /** Array.prototype.filter. */
  function Filter<T>(s: seq<T>, p: T -> bool): (r: seq<T>)
    ensures |r| <= |s|
    ensures forall i | 0 <= i < |r| :: p(r[i])
    ensures forall i | 0 <= i < |s| :: p(s[i]) ==> s[i] in r
    ensures multiset(r) <= multiset(s)
  {
    if s == [] then []
    else
      assert s == [s[0]] + s[1..];
      (if p(s[0]) then [s[0]] else []) + Filter(s[1..], p)
  }

  lemma {:induction false} FilterAppend<T>(a: seq<T>, b: seq<T>, p: T -> bool)
    ensures Filter(a + b, p) == Filter(a, p) + Filter(b, p)
  {
    if a == [] {
      assert a + b == b;
    } else {
      assert (a + b)[0] == a[0];
      assert (a + b)[1..] == a[1..] + b;
      FilterAppend(a[1..], b, p);
    }
  }

  /** r can be obtained from s by dropping elements, keeping the order of the rest. */
  predicate Subsequence<T(==)>(r: seq<T>, s: seq<T>)
    decreases |s|
  {
    if r == [] then true
    else if s == [] then false
    else (r[0] == s[0] && Subsequence(r[1..], s[1..])) || Subsequence(r, s[1..])
  }

  /** Filtering keeps the surviving elements in their original order. */
  lemma {:induction false} FilterSubsequence<T>(s: seq<T>, p: T -> bool)
    ensures Subsequence(Filter(s, p), s)
  {
    if s != [] {
      FilterSubsequence(s[1..], p);
      var r := Filter(s, p);
      if p(s[0]) {
        assert r[0] == s[0] && r[1..] == Filter(s[1..], p);
      } else {
        assert r == Filter(s[1..], p);
      }
    }
  }

  /** Filtering with a predicate that every element meets changes nothing. */
  lemma {:induction false} FilterAll<T>(s: seq<T>, p: T -> bool)
    requires forall i | 0 <= i < |s| :: p(s[i])
    ensures Filter(s, p) == s
  {
    if s != [] {
      FilterAll(s[1..], p);
    }
  }

  /** Filtering with a predicate that no element meets leaves nothing. */
  lemma FilterNone<T>(s: seq<T>, p: T -> bool)
    requires forall i | 0 <= i < |s| :: !p(s[i])
    ensures Filter(s, p) == []
  {
  }

  /** The elements of a filtered array are the elements of the array that meet p. */
  lemma FilterMember<T>(s: seq<T>, p: T -> bool, x: T)
    ensures x in Filter(s, p) <==> x in s && p(x)
  {
    var r := Filter(s, p);
    if x in r {
      var i :| 0 <= i < |r| && r[i] == x;
      assert x in multiset(s);
    }
  }

  /** Sorting neither adds nor drops an element. */
  lemma SortMember<T>(s: seq<T>, cmp: (T, T) -> int, x: T)
    ensures x in Sort(s, cmp) <==> x in s
  {
    assert x in Sort(s, cmp) <==> x in multiset(Sort(s, cmp));
  }

  /** Array.prototype.find: the first element meeting p. */
  function Find<T>(s: seq<T>, p: T -> bool): (r: Option<T>)
    ensures r.None? <==> forall i | 0 <= i < |s| :: !p(s[i])
    ensures r.Some? ==> exists i | 0 <= i < |s| :: s[i] == r.value && p(s[i]) && forall j | 0 <= j < i :: !p(s[j])
  {
    if s == [] then None
    else if p(s[0]) then Some(s[0])
    else
      var r := Find(s[1..], p);
      assert r.Some? ==> exists i | 0 <= i < |s| - 1 :: s[1..][i] == r.value && p(s[1..][i]) && forall j | 0 <= j < i :: !p(s[1..][j]);
      assert r.Some? ==> exists i | 1 <= i < |s| :: s[i] == r.value && p(s[i]) && forall j | 0 <= j < i :: !p(s[j]) by {
        if r.Some? {
          var i :| 0 <= i < |s| - 1 && s[1..][i] == r.value && p(s[1..][i]) && forall j | 0 <= j < i :: !p(s[1..][j]);
          assert s[i + 1] == r.value && p(s[i + 1]);
          forall j | 0 <= j < i + 1 ensures !p(s[j]) {
            if j > 0 {
              assert s[j] == s[1..][j - 1];
            }
          }
        }
      }
      r
  }

  /**
   * A comparator Array.prototype.sort can rely on: the sign of cmp(a, b) is the
   * opposite of the sign of cmp(b, a), and "does not sort after" is transitive.
   */
  ghost predicate Consistent<T(!new)>(cmp: (T, T) -> int) {
    (forall a, b :: cmp(a, b) < 0 <==> cmp(b, a) > 0)
    && (forall a, b, c :: cmp(a, b) <= 0 && cmp(b, c) <= 0 ==> cmp(a, c) <= 0)
  }

  /** No element sorts after a later one. */
  predicate Sorted<T>(s: seq<T>, cmp: (T, T) -> int) {
    forall i, j | 0 <= i < j < |s| :: cmp(s[i], s[j]) <= 0
  }

  /** Inserts x after the last element that does not sort after it. */
  function Insert<T>(x: T, s: seq<T>, cmp: (T, T) -> int): (r: seq<T>)
    ensures multiset(r) == multiset(s) + multiset{x}
    ensures |r| == |s| + 1
  {
    if s == [] then [x]
    else if cmp(s[|s| - 1], x) <= 0 then s + [x]
    else
      assert s == s[..|s| - 1] + [s[|s| - 1]];
      Insert(x, s[..|s| - 1], cmp) + [s[|s| - 1]]
  }

  /** Array.prototype.sort(cmp) on a copy: the stable sort by cmp. */
  function Sort<T>(s: seq<T>, cmp: (T, T) -> int): (r: seq<T>)
    ensures multiset(r) == multiset(s)
    ensures |r| == |s|
  {
    if s == [] then []
    else
      assert s == s[..|s| - 1] + [s[|s| - 1]];
      Insert(s[|s| - 1], Sort(s[..|s| - 1], cmp), cmp)
  }

  lemma {:induction false} InsertSorted<T(!new)>(x: T, s: seq<T>, cmp: (T, T) -> int)
    requires Consistent(cmp) && Sorted(s, cmp)
    ensures Sorted(Insert(x, s, cmp), cmp)
    decreases |s|
  {
    if s == [] {
    } else if cmp(s[|s| - 1], x) <= 0 {
      forall k | 0 <= k < |s| ensures cmp(s[k], x) <= 0 {
        if k < |s| - 1 {
          assert cmp(s[k], s[|s| - 1]) <= 0;
        }
      }
      AppendSorted(s, x, cmp);
    } else {
      var front, last := s[..|s| - 1], s[|s| - 1];
      assert Sorted(front, cmp);
      InsertSorted(x, front, cmp);
      InsertedBelow(x, front, last, cmp);
      assert Insert(x, s, cmp) == Insert(x, front, cmp) + [last];
      AppendSorted(Insert(x, front, cmp), last, cmp);
    }
  }

  /** Appending an element that nothing sorts after keeps a sequence sorted. */
  lemma AppendSorted<T>(q: seq<T>, last: T, cmp: (T, T) -> int)
    requires Sorted(q, cmp)
    requires forall k | 0 <= k < |q| :: cmp(q[k], last) <= 0
    ensures Sorted(q + [last], cmp)
  {
    var r := q + [last];
    forall i, j | 0 <= i < j < |r| ensures cmp(r[i], r[j]) <= 0 {
      if j < |q| {
        assert r[i] == q[i] && r[j] == q[j];
      } else {
        assert r[i] == q[i] && r[j] == last;
      }
    }
  }

  /** Inserting x, which sorts before last, into what precedes last leaves everything not after last. */
  lemma InsertedBelow<T(!new)>(x: T, front: seq<T>, last: T, cmp: (T, T) -> int)
    requires Consistent(cmp) && Sorted(front + [last], cmp) && cmp(last, x) > 0
    ensures forall k | 0 <= k < |Insert(x, front, cmp)| :: cmp(Insert(x, front, cmp)[k], last) <= 0
  {
    var q := Insert(x, front, cmp);
    var s := front + [last];
    forall k | 0 <= k < |q| ensures cmp(q[k], last) <= 0 {
      assert q[k] in multiset(q);
      if q[k] != x {
        assert q[k] in multiset(front);
        var m :| 0 <= m < |front| && front[m] == q[k];
        assert s[m] == front[m] && s[|front|] == last;
      }
    }
  }

  /** The result of Sort never puts an element before one that sorts ahead of it. */
  lemma {:induction false} SortSorted<T(!new)>(s: seq<T>, cmp: (T, T) -> int)
    requires Consistent(cmp)
    ensures Sorted(Sort(s, cmp), cmp)
    decreases |s|
  {
    if s != [] {
      SortSorted(s[..|s| - 1], cmp);
      InsertSorted(s[|s| - 1], Sort(s[..|s| - 1], cmp), cmp);
    }
  }

  lemma FilterSingle<T>(x: T, p: T -> bool)
    ensures Filter([x], p) == if p(x) then [x] else []
  {
    assert [x][1..] == [];
  }

  lemma {:induction false} InsertStable<T>(x: T, s: seq<T>, cmp: (T, T) -> int, p: T -> bool)
    requires forall a, b :: p(a) && p(b) ==> cmp(a, b) == 0
    ensures Filter(Insert(x, s, cmp), p) == Filter(s, p) + Filter([x], p)
    decreases |s|
  {
    if s == [] {
    } else if cmp(s[|s| - 1], x) <= 0 {
      FilterAppend(s, [x], p);
    } else {
      var front, last := s[..|s| - 1], s[|s| - 1];
      assert s == front + [last];
      var q := Insert(x, front, cmp);
      assert Insert(x, s, cmp) == q + [last];
      assert !(p(x) && p(last));
      FilterSingle(x, p);
      FilterSingle(last, p);
      FilterAppend(q, [last], p);
      InsertStable(x, front, cmp, p);
      FilterAppend(front, [last], p);
      SwapEmpty(Filter(front, p), Filter([x], p), Filter([last], p));
    }
  }

  lemma SwapEmpty<T>(a: seq<T>, b: seq<T>, c: seq<T>)
    requires b == [] || c == []
    ensures a + b + c == a + c + b
  {
    if b == [] {
      assert a + b == a && c + b == c;
    } else {
      assert a + c == a && b + c == b;
    }
  }

  /**
   * Stability: the elements of any set of mutually tied elements come out of
   * Sort in the order they went in.
   */
  lemma {:induction false} SortStable<T>(s: seq<T>, cmp: (T, T) -> int, p: T -> bool)
    requires forall a, b :: p(a) && p(b) ==> cmp(a, b) == 0
    ensures Filter(Sort(s, cmp), p) == Filter(s, p)
    decreases |s|
  {
    if s != [] {
      var front, last := s[..|s| - 1], s[|s| - 1];
      assert s == front + [last];
      assert Sort(s, cmp) == Insert(last, Sort(front, cmp), cmp);
      SortStable(front, cmp, p);
      InsertStable(last, Sort(front, cmp), cmp, p);
      FilterAppend(front, [last], p);
    }
  }

  /** Compares by an integer key: the difference of the keys. */
  function ByKey<T>(key: T -> int): (T, T) -> int {
    (a: T, b: T) => key(a) - key(b)
  }

  /** p, falling back to q where p ties. */
  function ThenBy<T>(p: (T, T) -> int, q: (T, T) -> int): (T, T) -> int {
    (a: T, b: T) => if p(a, b) != 0 then p(a, b) else q(a, b)
  }

  /** p with every result negated. */
  function Reverse<T>(p: (T, T) -> int): (T, T) -> int {
    (a: T, b: T) => -p(a, b)
  }

  lemma ByKeyConsistent<T(!new)>(key: T -> int)
    ensures Consistent(ByKey(key))
  {
  }

  lemma StrictBefore<T(!new)>(p: (T, T) -> int, a: T, b: T, c: T)
    requires Consistent(p)
    requires p(a, b) < 0 && p(b, c) <= 0
    ensures p(a, c) < 0
  {
    assert p(b, c) <= 0 && p(c, a) <= 0 ==> p(b, a) <= 0;
  }

  lemma StrictAfter<T(!new)>(p: (T, T) -> int, a: T, b: T, c: T)
    requires Consistent(p)
    requires p(a, b) <= 0 && p(b, c) < 0
    ensures p(a, c) < 0
  {
    assert p(c, a) <= 0 && p(a, b) <= 0 ==> p(c, b) <= 0;
  }

  lemma ThenByConsistent<T(!new)>(p: (T, T) -> int, q: (T, T) -> int)
    requires Consistent(p) && Consistent(q)
    ensures Consistent(ThenBy(p, q))
  {
    var r := ThenBy(p, q);
    forall a, b, c | r(a, b) <= 0 && r(b, c) <= 0 ensures r(a, c) <= 0 {
      if p(a, b) == 0 && p(b, c) == 0 {
        assert p(c, b) <= 0 && p(b, a) <= 0 ==> p(c, a) <= 0;
      } else if p(a, b) != 0 {
        StrictBefore(p, a, b, c);
      } else {
        StrictAfter(p, a, b, c);
      }
    }
  }

  lemma ReverseConsistent<T(!new)>(p: (T, T) -> int)
    requires Consistent(p)
    ensures Consistent(Reverse(p))
  {
    var r := Reverse(p);
    forall a, b, c | r(a, b) <= 0 && r(b, c) <= 0 ensures r(a, c) <= 0 {
      assert p(c, b) <= 0 && p(b, a) <= 0;
      assert p(c, a) <= 0;
    }
  }

  /** Two comparators that agree everywhere are alike in consistency. */
  lemma ConsistentPointwise<T(!new)>(p: (T, T) -> int, q: (T, T) -> int)
    requires Consistent(p)
    requires forall a, b :: p(a, b) == q(a, b)
    ensures Consistent(q)
  {
  }

  /** Array.prototype.filter(p).length: the number of positions whose element passes p. */
  function Count<T>(s: seq<T>, p: T -> bool): (r: nat)
    ensures r <= |s|
    ensures r == |PassingIndices(s, p)|
  {
    FilterLengthIsPassingIndices(s, p);
    |Filter(s, p)|
  }

  /** The positions of s whose element passes p. */
  function PassingIndices<T>(s: seq<T>, p: T -> bool): set<int> {
    set i | 0 <= i < |s| && p(s[i])
  }

  lemma {:induction false} FilterLengthIsPassingIndices<T>(s: seq<T>, p: T -> bool)
    ensures |Filter(s, p)| == |PassingIndices(s, p)|
    decreases |s|
  {
    if s == [] {
      assert PassingIndices(s, p) == {};
    } else {
      var n := |s| - 1;
      FilterLengthIsPassingIndices(s[..n], p);
      assert s == s[..n] + [s[n]];
      FilterAppend(s[..n], [s[n]], p);
      FilterSingle(s[n], p);
      PassingIndicesSnoc(s[..n], s[n], p);
    }
  }

  lemma PassingIndicesSnoc<T>(a: seq<T>, x: T, p: T -> bool)
    ensures PassingIndices(a + [x], p) == PassingIndices(a, p) + (if p(x) then {|a|} else {})
    ensures |a| !in PassingIndices(a, p)
  {
    var s := a + [x];
    forall i | 0 <= i < |a| ensures s[i] == a[i] { }
    assert s[|a|] == x;
  }

  /** Array.prototype.some. */
  predicate Any<T>(s: seq<T>, p: T -> bool) {
    exists i | 0 <= i < |s| :: p(s[i])
  }
}
