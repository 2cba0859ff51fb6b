/** Vocabulary shared by the models: options, bytes and finite sums. */
module Util {
  datatype Option<+T> = None | Some(value: T)

  type Byte = x: int | 0 <= x < 256
  type Bytes = seq<Byte>

  /** Nanoseconds, the unit of the program's clock readings, in a second. */
  const SECOND: nat := 1_000_000_000

  function Min(a: int, b: int): int { if a <= b then a else b }

  function Max(a: int, b: int): int { if a >= b then a else b }

  /** A Go map read: a missing key reads as zero. */
  function At(m: map<nat, nat>, i: nat): nat { if i in m then m[i] else 0 }

  /** The sum of m over the indices below n. */
  function SumTo(m: map<nat, nat>, n: nat): nat {
    if n == 0 then 0 else SumTo(m, n - 1) + At(m, n - 1)
  }

  lemma {:induction false} SumToUpdate(m: map<nat, nat>, i: nat, v: nat, n: nat)
    ensures SumTo(m[i := v], n) == if i < n then SumTo(m, n) - At(m, i) + v else SumTo(m, n)
  {
    if n != 0 { SumToUpdate(m, i, v, n - 1); }
  }

  lemma {:induction false} SumToMonotone(m: map<nat, nat>, k: map<nat, nat>, n: nat)
    requires forall i: nat :: i < n ==> At(m, i) <= At(k, i)
    ensures SumTo(m, n) <= SumTo(k, n)
  {
    if n != 0 { SumToMonotone(m, k, n - 1); }
  }

  lemma {:induction false} SumToEmpty(m: map<nat, nat>, n: nat)
    requires forall i :: i in m ==> m[i] == 0
    ensures SumTo(m, n) == 0
  {
    if n != 0 { SumToEmpty(m, n - 1); }
  }

  lemma OneMoreTimes(a: nat, n: nat)
    ensures a * (n + 1) == a * n + a
  {
  }

  /** Sums that differ by at most limit at the indices of s. */
  lemma {:induction false} SumToWithin(m: map<nat, nat>, k: map<nat, nat>, s: set<nat>, limit: nat, n: nat)
    requires forall i: nat :: i < n ==> At(m, i) <= At(k, i) + if i in s then limit else 0
    requires forall i :: i in s ==> i < n
    ensures SumTo(m, n) <= SumTo(k, n) + limit * |s|
  {
    if n == 0 {
      assert s == {};
    } else {
      var rest := s - {n - 1};
      SumToWithin(m, k, rest, limit, n - 1);
      if n - 1 in s { OneMoreTimes(limit, |rest|); } else { assert rest == s; }
    }
  }

  /** The sum of all values of a finite map. */
  ghost function MapSum<K(!new)>(m: map<K, nat>): nat {
    if m == map[] then 0 else
      var k :| k in m;
      m[k] + MapSum(m - {k})
  }

  /** Any key may be taken out first. */
  lemma {:induction false} MapSumTake<K(!new)>(m: map<K, nat>, k: K)
    requires k in m
    ensures MapSum(m) == m[k] + MapSum(m - {k})
    decreases |m|
  {
    var c :| c in m && MapSum(m) == m[c] + MapSum(m - {c});
    if c != k {
      MapSumTake(m - {c}, k);
      MapSumTake(m - {k}, c);
      assert m - {c} - {k} == m - {k} - {c};
    }
  }

  lemma MapSumPut<K(!new)>(m: map<K, nat>, k: K, v: nat)
    requires k !in m
    ensures MapSum(m[k := v]) == MapSum(m) + v
  {
    MapSumTake(m[k := v], k);
    assert m[k := v] - {k} == m;
  }

  lemma MapSumEmpty<K(!new)>()
    ensures MapSum<K>(map[]) == 0
  {
  }

  lemma {:induction false} MapSumUnion<K(!new)>(m: map<K, nat>, n: map<K, nat>)
    requires m.Keys !! n.Keys
    ensures MapSum(m + n) == MapSum(m) + MapSum(n)
    decreases |m|
  {
    MapSumEmpty<K>();
    hide MapSum;
    if m == map[] {
      assert m + n == n;
    } else {
      var k :| k in m;
      MapSumTake(m, k);
      MapSumTake(m + n, k);
      UnionWithout(m, n, k);
      MapSumUnion(m - {k}, n);
    }
  }

  lemma UnionWithout<K(!new), V>(m: map<K, V>, n: map<K, V>, k: K)
    requires k in m && k !in n
    ensures (m + n) - {k} == (m - {k}) + n && (m + n)[k] == m[k]
  {
  }

  /** The pigeonhole step: a full count of indices below n is every index below n. */
  lemma {:induction false} FullCount(s: set<nat>, n: nat)
    requires forall i :: i in s ==> i < n
    ensures |s| <= n
    ensures |s| == n <==> forall i: nat :: i < n ==> i in s
  {
    if n == 0 {
      assert s == {};
    } else {
      var r := s - {n - 1};
      FullCount(r, n - 1);
      if n - 1 in s { assert |s| == |r| + 1; } else { assert s == r; }
    }
  }
}
