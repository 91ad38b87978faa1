/** Shared vocabulary: optional values, the hour, sums over finite sets, and a stable descending sort. */
module Prelude {
  datatype Option<+T> = None | Some(value: T) {
    function GetOr(default: T): T {
      match this
      case None => default
      case Some(v) => v
    }
  }

  const HOUR_MS := 60 * 60 * 1000

  function Abs(x: int): (r: nat)
    ensures r == x || r == -x
  {
    if x < 0 then -x else x
  }

  function MinInt(a: int, b: int): int {
    if a <= b then a else b
  }

  function MaxInt(a: int, b: int): int {
    if a <= b then b else a
  }

  // ---------------------------------------------------------------- sums over finite maps

  ghost function SumMap<K>(m: map<K, int>): int {
    if m == map[] then 0
    else
      var x :| x in m;
      m[x] + SumMap(m - {x})
  }

  /** The sum does not depend on the order in which the keys are picked. */
  lemma {:induction false} SumRemove<K>(m: map<K, int>, x: K)
    requires x in m
    ensures SumMap(m) == m[x] + SumMap(m - {x})
    decreases |m|
  {
    var y :| y in m && SumMap(m) == m[y] + SumMap(m - {y});
    if y != x {
      SumRemove(m - {y}, x);
      SumRemove(m - {x}, y);
      assert m - {y} - {x} == m - {x} - {y};
    }
  }

  /** Renaming the keys one to one does not change the sum. */
  lemma {:induction false} SumRekey<K, L>(m: map<K, int>, n: map<L, int>, rename: map<K, L>)
    requires rename.Keys == m.Keys
    requires forall x :: x in m ==> rename[x] in n && m[x] == n[rename[x]]
    requires forall x, y :: x in m && y in m && x != y ==> rename[x] != rename[y]
    requires forall z :: z in n ==> exists x :: x in m && rename[x] == z
    ensures SumMap(m) == SumMap(n)
    decreases |m|
  {
    if m == map[] {
      assert n == map[];
    } else {
      var x :| x in m;
      SumRemove(m, x);
      SumRemove(n, rename[x]);
      forall z | z in n - {rename[x]} ensures exists y :: y in m - {x} && (rename - {x})[y] == z {
        var y :| y in m && rename[y] == z;
        assert y in m - {x};
      }
      SumRekey(m - {x}, n - {rename[x]}, rename - {x});
    }
  }

  lemma {:induction false} SumAdd<K>(a: map<K, int>, b: map<K, int>, c: map<K, int>)
    requires a.Keys == b.Keys == c.Keys
    requires forall x :: x in c ==> c[x] == a[x] + b[x]
    ensures SumMap(c) == SumMap(a) + SumMap(b)
    decreases |c|
  {
    if c == map[] {
      assert a == map[] && b == map[];
    } else {
      var x :| x in c;
      SumRemove(a, x);
      SumRemove(b, x);
      SumRemove(c, x);
      SumAdd(a - {x}, b - {x}, c - {x});
    }
  }

  lemma {:induction false} SumMonotone<K>(a: map<K, int>, b: map<K, int>)
    requires a.Keys == b.Keys
    requires forall x :: x in a ==> a[x] <= b[x]
    ensures SumMap(a) <= SumMap(b)
    decreases |a|
  {
    if a == map[] {
      assert b == map[];
    } else {
      var x :| x in a;
      SumRemove(a, x);
      SumRemove(b, x);
      SumMonotone(a - {x}, b - {x});
    }
  }

  // ---------------------------------------------------------------- stable descending sort

  ghost predicate SortedDesc<T>(s: seq<T>, key: T -> real) {
    forall i, j :: 0 <= i < j < |s| ==> key(s[i]) >= key(s[j])
  }

  function InsertDesc<T>(x: T, s: seq<T>, key: T -> real): (r: seq<T>)
    ensures multiset(r) == multiset(s) + multiset{x}
  {
    if s == [] then [x]
    else if key(x) >= key(s[0]) then [x] + s
    else
      assert s == [s[0]] + s[1..];
      [s[0]] + InsertDesc(x, s[1..], key)
  }

  lemma {:induction false} InsertKeepsSorted<T>(x: T, s: seq<T>, key: T -> real)
    requires SortedDesc(s, key)
    ensures SortedDesc(InsertDesc(x, s, key), key)
  {
    if s != [] && key(x) < key(s[0]) {
      var rest := InsertDesc(x, s[1..], key);
      InsertKeepsSorted(x, s[1..], key);
      forall i | 0 <= i < |rest| ensures key(s[0]) >= key(rest[i]) {
        assert rest[i] in multiset(rest);
        assert rest[i] == x || rest[i] in s[1..];
      }
    }
  }

  /** What `Array.prototype.sort` with a descending comparator returns: equal keys keep their order. */
  function SortDesc<T>(s: seq<T>, key: T -> real): (r: seq<T>)
    ensures multiset(r) == multiset(s)
    ensures SortedDesc(r, key)
    ensures |r| == |s|
  {
    if s == [] then []
    else
      assert s == [s[0]] + s[1..];
      InsertKeepsSorted(s[0], SortDesc(s[1..], key), key);
      var r := InsertDesc(s[0], SortDesc(s[1..], key), key);
      assert |multiset(r)| == |multiset(s)|;
      r
  }

  lemma SameElements<T>(a: seq<T>, b: seq<T>)
    requires multiset(a) == multiset(b)
    ensures forall x :: x in a <==> x in b
    ensures |a| == |b|
  {
    assert forall x :: x in a <==> x in multiset(a);
    assert forall x :: x in b <==> x in multiset(b);
    assert |multiset(a)| == |a|;
    assert |multiset(b)| == |b|;
  }

  ghost predicate Distinct<T>(s: seq<T>) {
    forall i, j :: 0 <= i < j < |s| ==> s[i] != s[j]
  }

  lemma {:induction false} DistinctCounts<T>(s: seq<T>)
    ensures Distinct(s) <==> forall x :: multiset(s)[x] <= 1
  {
    if s != [] {
      var rest := s[1..];
      assert s == [s[0]] + rest;
      DistinctCounts(rest);
      if Distinct(s) {
        assert Distinct(rest);
        assert s[0] !in rest;
      }
      if forall x :: multiset(s)[x] <= 1 {
        assert forall x :: multiset(rest)[x] <= multiset(s)[x];
        assert multiset(rest)[s[0]] == 0;
        assert s[0] !in rest;
      }
    }
  }

  lemma DistinctPermutation<T>(a: seq<T>, b: seq<T>)
    requires multiset(a) == multiset(b) && Distinct(a)
    ensures Distinct(b)
  {
    DistinctCounts(a);
    DistinctCounts(b);
  }

  // ---------------------------------------------------------------- mapping over a sequence

  function MapSeq<T, U>(f: T -> U, s: seq<T>): (r: seq<U>)
    ensures |r| == |s|
    ensures forall i :: 0 <= i < |s| ==> r[i] == f(s[i])
  {
    seq(|s|, i requires 0 <= i < |s| => f(s[i]))
  }

  lemma {:induction false} MapRemove<T, U>(f: T -> U, s: seq<T>, k: nat)
    requires k < |s|
    ensures multiset(MapSeq(f, s)) == multiset(MapSeq(f, s[..k] + s[k + 1..])) + multiset{f(s[k])}
  {
    var m, rest := MapSeq(f, s), MapSeq(f, s[..k] + s[k + 1..]);
    assert m == m[..k] + [m[k]] + m[k + 1..];
    assert rest == m[..k] + m[k + 1..];
  }

  lemma RemoveAt<T>(s: seq<T>, k: nat)
    requires k < |s|
    ensures multiset(s) == multiset(s[..k] + s[k + 1..]) + multiset{s[k]}
  {
    assert s == s[..k] + [s[k]] + s[k + 1..];
  }

  lemma CancelOne<T>(a: multiset<T>, b: multiset<T>, x: T)
    requires a + multiset{x} == b + multiset{x}
    ensures a == b
  {
    assert a == (a + multiset{x}) - multiset{x};
    assert b == (b + multiset{x}) - multiset{x};
  }

  lemma FindIndex<T>(s: seq<T>, x: T) returns (k: nat)
    requires x in multiset(s)
    ensures k < |s| && s[k] == x
  {
    k :| 0 <= k < |s| && s[k] == x;
  }

  /** Mapping commutes with permuting. */
  lemma {:induction false} MapPermutes<T, U>(f: T -> U, a: seq<T>, b: seq<T>)
    requires multiset(a) == multiset(b)
    ensures multiset(MapSeq(f, a)) == multiset(MapSeq(f, b))
    decreases |a|
  {
    if a == [] {
      assert b == [] by { assert |multiset(b)| == |b|; }
    } else {
      var x := a[0];
      var k := FindIndex(b, x);
      var a', b' := a[..0] + a[1..], b[..k] + b[k + 1..];
      assert multiset(a') == multiset(b') by {
        RemoveAt(a, 0);
        RemoveAt(b, k);
        CancelOne(multiset(a'), multiset(b'), x);
      }
      calc {
        multiset(MapSeq(f, a));
        { MapRemove(f, a, 0); }
        multiset(MapSeq(f, a')) + multiset{f(x)};
        { MapPermutes(f, a', b'); }
        multiset(MapSeq(f, b')) + multiset{f(x)};
        { MapRemove(f, b, k); }
        multiset(MapSeq(f, b));
      }
    }
  }
}
