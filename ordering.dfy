/** Orders used by the repositories' ORDER BY clauses, and sorting by them. */
module Ordering {
  import opened Wrappers


  /** Lexicographic order on strings by code point: the order of the CHAR(36) identifier
      columns, which only ever hold lower-case canonical UUID text. */
  predicate StrLe(a: string, b: string)
    decreases |a|
  {
    if a == [] then true
    else if b == [] then false
    else if a[0] != b[0] then a[0] < b[0]
    else StrLe(a[1..], b[1..])
  }

  lemma {:induction false} StrLeTotal(a: string, b: string)
    ensures StrLe(a, b) || StrLe(b, a)
    decreases |a|
  {
    if a != [] && b != [] && a[0] == b[0] {
      StrLeTotal(a[1..], b[1..]);
    }
  }

  lemma {:induction false} StrLeAntisymmetric(a: string, b: string)
    requires StrLe(a, b) && StrLe(b, a)
    ensures a == b
    decreases |a|
  {
    if a != [] && b != [] {
      StrLeAntisymmetric(a[1..], b[1..]);
      assert a == [a[0]] + a[1..];
      assert b == [b[0]] + b[1..];
    }
  }

  lemma {:induction false} StrLeTransitive(a: string, b: string, c: string)
    requires StrLe(a, b) && StrLe(b, c)
    ensures StrLe(a, c)
    decreases |a|
  {
    if a != [] && b != [] && c != [] && a[0] == b[0] && b[0] == c[0] {
      StrLeTransitive(a[1..], b[1..], c[1..]);
    }
  }

  // ---------------------------------------------------------------------------
  // Sorting by a total preorder

  ghost predicate TotalPreorder<T(!new)>(le: (T, T) -> bool) {
    && (forall a, b :: le(a, b) || le(b, a))
    && (forall a, b, c :: le(a, b) && le(b, c) ==> le(a, c))
  }

  predicate SortedBy<T>(s: seq<T>, le: (T, T) -> bool) {
    forall i, j :: 0 <= i < j < |s| ==> le(s[i], s[j])
  }

  /** Insert `x` before the first element it is ordered before. */
  function InsertBy<T>(x: T, s: seq<T>, le: (T, T) -> bool): (r: seq<T>)
    ensures |r| == |s| + 1
  {
    if s == [] then [x]
    else if le(x, s[0]) then [x] + s
    else [s[0]] + InsertBy(x, s[1..], le)
  }

  /** The elements of `s` in non-decreasing `le` order (a stable insertion sort). */
  function SortBy<T>(s: seq<T>, le: (T, T) -> bool): (r: seq<T>)
    ensures |r| == |s|
  {
    if s == [] then [] else InsertBy(s[0], SortBy(s[1..], le), le)
  }

  lemma {:induction false} InsertByMultiset<T>(x: T, s: seq<T>, le: (T, T) -> bool)
    ensures multiset(InsertBy(x, s, le)) == multiset(s) + multiset{x}
    decreases |s|
  {
    if s != [] && !le(x, s[0]) {
      var t := InsertBy(x, s[1..], le);
      InsertByMultiset(x, s[1..], le);
      assert InsertBy(x, s, le) == [s[0]] + t;
      assert multiset([s[0]] + t) == multiset{s[0]} + multiset(t);
      assert s == [s[0]] + s[1..];
      assert multiset(s) == multiset{s[0]} + multiset(s[1..]);
    }
  }

  lemma ConsSorted<T>(h: T, t: seq<T>, le: (T, T) -> bool)
    requires SortedBy(t, le)
    requires forall k :: 0 <= k < |t| ==> le(h, t[k])
    ensures SortedBy([h] + t, le)
  {
    var r := [h] + t;
    forall i, j | 0 <= i < j < |r| ensures le(r[i], r[j]) {
      if i == 0 {
        assert r[j] == t[j - 1];
      } else {
        assert r[i] == t[i - 1] && r[j] == t[j - 1];
      }
    }
  }

  /** Every element of `t` drawn from `s` or equal to `x` follows `h` when `x` and `s` do. */
  lemma FollowsAll<T>(h: T, x: T, s: seq<T>, t: seq<T>, le: (T, T) -> bool)
    requires multiset(t) == multiset(s) + multiset{x}
    requires le(h, x) && forall k :: 0 <= k < |s| ==> le(h, s[k])
    ensures forall k :: 0 <= k < |t| ==> le(h, t[k])
  {
    forall k | 0 <= k < |t| ensures le(h, t[k]) {
      assert t[k] in multiset(t);
      if t[k] != x {
        assert t[k] in multiset(s);
        var m :| 0 <= m < |s| && s[m] == t[k];
      }
    }
  }

  lemma {:induction false} InsertBySorted<T(!new)>(x: T, s: seq<T>, le: (T, T) -> bool)
    requires TotalPreorder(le)
    requires SortedBy(s, le)
    ensures SortedBy(InsertBy(x, s, le), le)
    decreases |s|
  {
    if s == [] {
    } else if le(x, s[0]) {
      forall k | 0 <= k < |s| ensures le(x, s[k]) {
        if k > 0 {
          assert le(s[0], s[k]);
        }
      }
      ConsSorted(x, s, le);
    } else {
      assert le(s[0], x);
      var rest := s[1..];
      assert SortedBy(rest, le) by {
        forall i, j | 0 <= i < j < |rest| ensures le(rest[i], rest[j]) {
          assert rest[i] == s[i + 1] && rest[j] == s[j + 1];
        }
      }
      InsertBySorted(x, rest, le);
      InsertByMultiset(x, rest, le);
      forall k | 0 <= k < |rest| ensures le(s[0], rest[k]) {
        assert rest[k] == s[k + 1];
      }
      FollowsAll(s[0], x, rest, InsertBy(x, rest, le), le);
      ConsSorted(s[0], InsertBy(x, rest, le), le);
    }
  }

  lemma InsertBySpec<T(!new)>(x: T, s: seq<T>, le: (T, T) -> bool)
    requires TotalPreorder(le)
    requires SortedBy(s, le)
    ensures SortedBy(InsertBy(x, s, le), le)
    ensures multiset(InsertBy(x, s, le)) == multiset(s) + multiset{x}
  {
    InsertBySorted(x, s, le);
    InsertByMultiset(x, s, le);
  }

  lemma {:induction false} SortBySpec<T(!new)>(s: seq<T>, le: (T, T) -> bool)
    requires TotalPreorder(le)
    ensures SortedBy(SortBy(s, le), le)
    ensures multiset(SortBy(s, le)) == multiset(s)
  {
    if s != [] {
      SortBySpec(s[1..], le);
      InsertBySpec(s[0], SortBy(s[1..], le), le);
      assert s == [s[0]] + s[1..];
    }
  }

  lemma SortedTail<T>(s: seq<T>, le: (T, T) -> bool)
    requires s != [] && SortedBy(s, le)
    ensures SortedBy(s[1..], le)
  {
    forall a, b | 0 <= a < b < |s[1..]| ensures le(s[1..][a], s[1..][b]) {
      assert le(s[a + 1], s[b + 1]);
    }
  }

  /** Two sorted arrangements of the same elements start with the same one. */
  lemma SortedSameHead<T>(s: seq<T>, t: seq<T>, le: (T, T) -> bool)
    requires forall a, b :: a in s && b in s && le(a, b) && le(b, a) ==> a == b
    requires s != [] && SortedBy(s, le) && SortedBy(t, le)
    requires multiset(s) == multiset(t)
    ensures t != [] && s[0] == t[0]
  {
    assert s[0] in multiset(t);
    var i :| 0 <= i < |t| && t[i] == s[0];
    assert t[0] in multiset(s);
    var j :| 0 <= j < |s| && s[j] == t[0];
    if i > 0 && j > 0 {
      assert le(t[0], t[i]);
      assert le(s[0], s[j]);
    }
  }

  lemma MultisetTails<T>(s: seq<T>, t: seq<T>)
    requires s != [] && t != [] && s[0] == t[0] && multiset(s) == multiset(t)
    ensures multiset(s[1..]) == multiset(t[1..])
  {
    assert s == [s[0]] + s[1..];
    assert t == [t[0]] + t[1..];
    assert multiset(s) == multiset{s[0]} + multiset(s[1..]);
    assert multiset(t) == multiset{t[0]} + multiset(t[1..]);
    assert multiset(s[1..]) == multiset(s) - multiset{s[0]};
    assert multiset(t[1..]) == multiset(t) - multiset{t[0]};
  }

  /** Two sorted arrangements of the same elements, under an order that never ties two
      distinct ones of them, are the same sequence. */
  lemma {:induction false} SortedUnique<T>(s: seq<T>, t: seq<T>, le: (T, T) -> bool)
    requires forall a, b :: a in s && b in s && le(a, b) && le(b, a) ==> a == b
    requires SortedBy(s, le) && SortedBy(t, le)
    requires multiset(s) == multiset(t)
    ensures s == t
    decreases |s|
  {
    if s == [] {
      assert |t| == |multiset(t)| == 0;
    } else {
      SortedSameHead(s, t, le);
      MultisetTails(s, t);
      SortedTail(s, le);
      SortedTail(t, le);
      assert forall x :: x in s[1..] ==> x in s;
      SortedUnique(s[1..], t[1..], le);
      assert s == [s[0]] + s[1..];
      assert t == [t[0]] + t[1..];
    }
  }

  // ---------------------------------------------------------------------------
  // Filtering

  /** The elements satisfying `p`, in their order (a WHERE clause). */
  function Filter<T(!new)>(s: seq<T>, p: T -> bool): (r: seq<T>)
    ensures |r| <= |s|
    ensures forall k :: 0 <= k < |r| ==> p(r[k])
    ensures forall x :: x in r <==> x in s && p(x)
    ensures multiset(r) <= multiset(s)
  {
    if s == [] then []
    else
      assert s == [s[0]] + s[1..];
      (if p(s[0]) then [s[0]] else []) + Filter(s[1..], p)
  }

  /** Filtering keeps every copy of a satisfying element and no copy of the others. */
  lemma {:induction false} FilterCount<T(!new)>(s: seq<T>, p: T -> bool, x: T)
    ensures multiset(Filter(s, p))[x] == if p(x) then multiset(s)[x] else 0
    decreases |s|
  {
    if s != [] {
      FilterCount(s[1..], p, x);
      assert s == [s[0]] + s[1..];
    }
  }

  /** Filtering commutes with rearranging: equal multisets filter to equal multisets. */
  lemma FilterMultiset<T(!new)>(s: seq<T>, t: seq<T>, p: T -> bool)
    requires multiset(s) == multiset(t)
    ensures multiset(Filter(s, p)) == multiset(Filter(t, p))
  {
    forall x ensures multiset(Filter(s, p))[x] == multiset(Filter(t, p))[x] {
      FilterCount(s, p, x);
      FilterCount(t, p, x);
    }
  }

  /** The first element satisfying `p` (`.first()` after a filter), or None. */
  function FirstWhere<T(!new)>(s: seq<T>, p: T -> bool): (r: Option<T>)
    ensures r.Some? ==> r.value in s && p(r.value)
    ensures r.None? <==> forall x :: x in s ==> !p(x)
  {
    if s == [] then None
    else if p(s[0]) then Some(s[0])
    else FirstWhere(s[1..], p)
  }

  // ---------------------------------------------------------------------------
  // Distinct elements

  predicate NoDuplicates<T(==)>(s: seq<T>) {
    forall i, j :: 0 <= i < j < |s| ==> s[i] != s[j]
  }

  lemma {:induction false} DistinctCount<T>(s: seq<T>, x: T)
    requires NoDuplicates(s)
    ensures multiset(s)[x] <= 1
    decreases |s|
  {
    if s != [] {
      assert s == [s[0]] + s[1..];
      assert NoDuplicates(s[1..]) by {
        forall i, j | 0 <= i < j < |s[1..]| ensures s[1..][i] != s[1..][j] {
          assert s[i + 1] != s[j + 1];
        }
      }
      DistinctCount(s[1..], x);
      if s[0] == x {
        assert forall k :: 0 <= k < |s[1..]| ==> s[1..][k] != x by {
          forall k | 0 <= k < |s[1..]| ensures s[1..][k] != x {
            assert s[k + 1] != s[0];
          }
        }
        assert x !in s[1..];
      }
    }
  }

  lemma TwoOccurrences<T>(t: seq<T>, i: nat, j: nat)
    requires i < j < |t| && t[i] == t[j]
    ensures multiset(t)[t[i]] >= 2
  {
    assert t == t[..j] + t[j..];
    assert t[i] in t[..j] && t[j] in t[j..];
    assert multiset(t) == multiset(t[..j]) + multiset(t[j..]);
  }

  /** A sub-multiset of a sequence without duplicates has none either. */
  lemma DistinctSub<T>(s: seq<T>, t: seq<T>)
    requires NoDuplicates(s)
    requires multiset(t) <= multiset(s)
    ensures NoDuplicates(t)
  {
    forall i, j | 0 <= i < j < |t| ensures t[i] != t[j] {
      DistinctCount(s, t[i]);
      if t[i] == t[j] {
        TwoOccurrences(t, i, j);
      }
    }
  }

  // ---------------------------------------------------------------------------
  // OFFSET / LIMIT

  /** `OFFSET offset LIMIT limit` over an ordered result. */
  function Page<T>(all: seq<T>, limit: nat, offset: nat): (page: seq<T>)
    ensures |page| <= limit
    ensures |page| == (if offset >= |all| then 0 else if offset + limit <= |all| then limit else |all| - offset)
    ensures forall k :: 0 <= k < |page| ==> page[k] == all[offset + k]
  {
    var lo := if offset < |all| then offset else |all|;
    var hi := if offset + limit < |all| then offset + limit else |all|;
    all[lo..hi]
  }

  /** Two consecutive pages read the same rows as one page of both sizes. */
  lemma ConsecutivePagesConcat<T>(all: seq<T>, offset: nat, l1: nat, l2: nat)
    ensures Page(all, l1, offset) + Page(all, l2, offset + l1) == Page(all, l1 + l2, offset)
  {
    var p1 := Page(all, l1, offset);
    var p2 := Page(all, l2, offset + l1);
    var p := Page(all, l1 + l2, offset);
    assert |p1 + p2| == |p|;
    forall k | 0 <= k < |p| ensures (p1 + p2)[k] == p[k] {
      if k >= |p1| {
        assert (p1 + p2)[k] == p2[k - |p1|];
      }
    }
  }

  /** Over a result without duplicates, consecutive pages share no element. */
  lemma ConsecutivePagesApart<T>(all: seq<T>, offset: nat, l1: nat, l2: nat)
    requires NoDuplicates(all)
    ensures forall x :: x in Page(all, l1, offset) ==> x !in Page(all, l2, offset + l1)
  {
    var p1 := Page(all, l1, offset);
    var p2 := Page(all, l2, offset + l1);
    forall x | x in p1 ensures x !in p2 {
      var a :| 0 <= a < |p1| && p1[a] == x;
      forall b | 0 <= b < |p2| ensures p2[b] != x {
        assert p2[b] == all[offset + l1 + b] && x == all[offset + a];
      }
    }
  }

  /** A page of a sorted result is sorted. */
  lemma PageSorted<T>(all: seq<T>, limit: nat, offset: nat, le: (T, T) -> bool)
    requires SortedBy(all, le)
    ensures SortedBy(Page(all, limit, offset), le)
  {
    var p := Page(all, limit, offset);
    forall i, j | 0 <= i < j < |p| ensures le(p[i], p[j]) {
      assert p[i] == all[offset + i] && p[j] == all[offset + j];
    }
  }
}
