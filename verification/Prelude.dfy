/** Datatypes and arithmetic helpers shared by every module of the model. */
module Prelude {

  datatype Option<+T> = None | Some(value: T)

  datatype Result<+T, +E> = Ok(value: T) | Err(error: E)

  function Min(a: int, b: int): int {
    if a <= b then a else b
  }

  /** The decimal digit character of `d`. */
  function DigitChar(d: nat): char
    requires d < 10
  {
    '0' + d as char
  }

  /** Decimal text of a natural number, as Rust's `to_string` prints it. */
  function Decimal(n: nat): string {
    if n < 10 then [DigitChar(n)] else Decimal(n / 10) + [DigitChar(n % 10)]
  }

  predicate IsDigit(c: char) {
    '0' <= c <= '9'
  }

  function DigitValue(c: char): nat
    requires IsDigit(c)
  {
    (c - '0') as nat
  }

  predicate AllDigits(s: string) {
    forall i | 0 <= i < |s| :: IsDigit(s[i])
  }

  /** The number a string of decimal digits denotes; the empty string denotes 0. */
  function ReadDecimal(s: string): nat
    requires AllDigits(s)
  {
    if s == "" then 0 else 10 * ReadDecimal(s[..|s| - 1]) + DigitValue(s[|s| - 1])
  }

  lemma {:induction false} DecimalReadsBack(n: nat)
    ensures AllDigits(Decimal(n)) && Decimal(n) != ""
    ensures ReadDecimal(Decimal(n)) == n
  {
    if n >= 10 {
      DecimalReadsBack(n / 10);
      var s := Decimal(n);
      assert s[..|s| - 1] == Decimal(n / 10);
      assert s[|s| - 1] == DigitChar(n % 10);
    } else {
      assert Decimal(n)[..0] == "";
    }
  }

  lemma DecimalInjective(m: nat, n: nat)
    requires Decimal(m) == Decimal(n)
    ensures m == n
  {
    DecimalReadsBack(m);
    DecimalReadsBack(n);
  }

  // ---------------------------------------------------------------------------
  // Histories
  // ---------------------------------------------------------------------------

  /** Some element satisfies `p` and no later one satisfies `q`. */
  ghost predicate Since<T>(h: seq<T>, p: T -> bool, q: T -> bool) {
    exists i :: 0 <= i < |h| && p(h[i]) && forall j | i < j < |h| :: !q(h[j])
  }

  lemma SinceSnoc<T>(h: seq<T>, e: T, p: T -> bool, q: T -> bool)
    ensures Since(h + [e], p, q) <==> p(e) || (Since(h, p, q) && !q(e))
  {
    var h' := h + [e];
    if Since(h', p, q) && !p(e) {
      var i :| 0 <= i < |h'| && p(h'[i]) && forall j | i < j < |h'| :: !q(h'[j]);
      assert h'[|h|] == e;
      assert i < |h| && p(h[i]);
      assert forall j | i < j < |h| :: h'[j] == h[j];
    }
    if p(e) {
      assert p(h'[|h|]);
    } else if Since(h, p, q) && !q(e) {
      var i :| 0 <= i < |h| && p(h[i]) && forall j | i < j < |h| :: !q(h[j]);
      assert p(h'[i]);
      assert forall j | i < j < |h'| :: !q(h'[j]);
    }
  }

  lemma Regroup<T>(x: seq<T>, y: seq<T>, z: seq<T>)
    ensures x + (y + z) == (x + y) + z
  {
  }

  lemma LastOf<T>(h: seq<T>)
    requires h != []
    ensures h[..|h| - 1] + [h[|h| - 1]] == h
  {
  }

  // ---------------------------------------------------------------------------
  // Sums over a map
  // ---------------------------------------------------------------------------

  /** The sum of a measure over some keys of a map. */
  ghost function Sum<K, V>(m: map<K, V>, keys: set<K>, measure: V -> nat): nat
    requires keys <= m.Keys
    decreases keys
  {
    if keys == {} then 0
    else
      var k :| k in keys;
      measure(m[k]) + Sum(m, keys - {k}, measure)
  }

  /** Any key may be taken out first. */
  lemma {:induction false} SumTakeOut<K, V>(m: map<K, V>, keys: set<K>, k: K, measure: V -> nat)
    requires k in keys && keys <= m.Keys
    ensures Sum(m, keys, measure) == measure(m[k]) + Sum(m, keys - {k}, measure)
    decreases keys
  {
    var first :| first in keys && Sum(m, keys, measure) == measure(m[first]) + Sum(m, keys - {first}, measure);
    if first != k {
      SumTakeOut(m, keys - {first}, k, measure);
      SumTakeOut(m, keys - {k}, first, measure);
      assert keys - {first} - {k} == keys - {k} - {first};
    }
  }

  lemma {:induction false} SumOfAgreeing<K, V>(m: map<K, V>, n: map<K, V>, keys: set<K>, measure: V -> nat)
    requires keys <= m.Keys && keys <= n.Keys
    requires forall k | k in keys :: m[k] == n[k]
    ensures Sum(m, keys, measure) == Sum(n, keys, measure)
    decreases keys
  {
    if k :| k in keys {
      SumTakeOut(m, keys, k, measure);
      SumTakeOut(n, keys, k, measure);
      SumOfAgreeing(m, n, keys - {k}, measure);
    }
  }

  /** Changing one entry changes the sum by the difference of its measures. */
  lemma SumOfUpdate<K, V>(m: map<K, V>, k: K, v: V, measure: V -> nat)
    requires k in m
    ensures Sum(m[k := v], m.Keys, measure) + measure(m[k]) == Sum(m, m.Keys, measure) + measure(v)
  {
    var n := m[k := v];
    SumTakeOut(m, m.Keys, k, measure);
    SumTakeOut(n, m.Keys, k, measure);
    SumOfAgreeing(m, n, m.Keys - {k}, measure);
  }
}
