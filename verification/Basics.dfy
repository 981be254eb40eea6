/** Byte strings, decimal identifiers, Go's truncating integer division and finite sums. */
module Basics {

  datatype Option<+T> = None | Some(value: T)

  type byte = b: int | 0 <= b < 256

  /** A Go string: a sequence of bytes. */
  type Str = seq<byte>

  const EQUALS: byte := 61 // '='
  const COLON: byte := 58  // ':'

  // ---------- identifiers ----------

  /** strconv.Itoa / strconv.FormatInt(_, 10) on a non-negative number. */
  function Itoa(n: nat): (s: Str)
    ensures |s| >= 1
    ensures |s| == 1 <==> n < 10
  {
    if n < 10 then [48 + n] else Itoa(n / 10) + [48 + n % 10]
  }

  lemma {:induction false} ItoaInjective(m: nat, n: nat)
    requires Itoa(m) == Itoa(n)
    ensures m == n
  {
    if n < 10 {
      assert Itoa(m)[0] == Itoa(n)[0];
    } else {
      var a, b := Itoa(m), Itoa(n);
      assert a[..|a| - 1] == Itoa(m / 10) && b[..|b| - 1] == Itoa(n / 10);
      assert a[|a| - 1] == 48 + m % 10 && b[|b| - 1] == 48 + n % 10;
      ItoaInjective(m / 10, n / 10);
    }
  }

  // ---------- Go integer arithmetic ----------

  /** Go's / truncates toward zero; Dafny's is Euclidean. */
  function GoDiv(a: int, b: int): int
    requires b > 0
  {
    if a >= 0 then a / b else -((-a) / b)
  }

  /** Go's % takes the sign of the dividend. */
  function GoMod(a: int, b: int): int
    requires b > 0
  {
    a - b * GoDiv(a, b)
  }

  function Min(a: int, b: int): int { if a < b then a else b }

  // ---------- sequences ----------

  predicate Distinct<T(==)>(s: seq<T>) {
    forall i, j :: 0 <= i < j < |s| ==> s[i] != s[j]
  }

  // ---------- finite sums ----------

  /** The sum of the values of a finite map. */
  ghost function MapSum<K>(m: map<K, int>): int
    decreases |m|
  {
    if m == map[] then 0
    else
      var k :| k in m;
      m[k] + MapSum(m - {k})
  }

  /** The sum does not depend on which key is taken out first. */
  lemma {:induction false} MapSumTake<K>(m: map<K, int>, k: K)
    requires k in m
    ensures MapSum(m) == m[k] + MapSum(m - {k})
    decreases |m|
  {
    var c :| c in m && MapSum(m) == m[c] + MapSum(m - {c});
    if c != k {
      MapSumTake(m - {c}, k);
      MapSumTake(m - {k}, c);
      assert m - {c} - {k} == m - {k} - {c};
    }
  }

  lemma MapSumPut<K>(m: map<K, int>, k: K, v: int)
    ensures MapSum(m[k := v]) == MapSum(m) - (if k in m then m[k] else 0) + v
  {
    MapSumTake(m[k := v], k);
    if k in m {
      MapSumTake(m, k);
      assert m[k := v] - {k} == m - {k};
    } else {
      assert m[k := v] - {k} == m;
    }
  }

  lemma {:induction false} MapSumNonNegative<K>(m: map<K, int>)
    requires forall k | k in m :: m[k] >= 0
    ensures MapSum(m) >= 0
    decreases |m|
  {
    if m != map[] {
      var k :| k in m && MapSum(m) == m[k] + MapSum(m - {k});
      MapSumNonNegative(m - {k});
    }
  }
}
