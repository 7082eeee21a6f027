/** Definitions that several components share. */
module Common {

  datatype Option<+T> = None | Some(value: T)

  function Pow2(k: nat): (p: nat)
    ensures p >= 1
  {
    if k == 0 then 1 else 2 * Pow2(k - 1)
  }

  lemma {:induction false} Pow2Monotone(j: nat, k: nat)
    requires j <= k
    ensures Pow2(j) <= Pow2(k)
  {
    if j < k {
      Pow2Monotone(j, k - 1);
    }
  }

  lemma {:induction false} Remainder(n: nat, d: nat, q: nat, r: nat)
    requires n == d * q + r && r < d
    ensures n % d == r
  {
    var q' := n / d;
    DivMod(n, d);
    if q' < q {
      MulLess(d, q', q);
    } else if q < q' {
      MulLess(d, q, q');
    }
  }

  lemma {:induction false} MulAssoc(a: nat, b: nat, c: nat)
    ensures a * (b * c) == a * b * c
  {
  }

  lemma {:induction false} MulAdd(a: nat, b: nat, c: nat)
    ensures a * (b + c) == a * b + a * c
  {
  }

  lemma {:induction false} MulLess(a: nat, x: nat, b: nat)
    requires x < b
    ensures a * x + a <= a * b
  {
    MulAdd(a, x + 1, b - x - 1);
    MulAdd(a, x, 1);
  }

  lemma {:induction false} Regroup(n: nat, a: nat, q: nat, r: nat, b: nat, qb: nat, rb: nat)
    requires n == a * q + r && q == b * qb + rb
    ensures n == a * b * qb + (a * rb + r)
  {
    MulAdd(a, b * qb, rb);
    MulAssoc(a, b, qb);
  }

  lemma {:induction false} DivMod(n: nat, d: nat)
    requires d > 0
    ensures n == d * (n / d) + n % d && n % d < d
  {
  }

  lemma {:induction false} Product(a: nat, b: nat)
    requires a > 0 && b > 0
    ensures a * b > 0
  {
    MulLess(a, 0, b);
  }

  lemma {:induction false} ModuloSplit(n: nat, a: nat, b: nat)
    requires a > 0 && b > 0
    ensures a * b > 0 && n % (a * b) == n / a % b * a + n % a
  {
    Product(a, b);
    var q, r := n / a, n % a;
    var qb, rb := q / b, q % b;
    DivMod(n, a);
    DivMod(q, b);
    Regroup(n, a, q, r, b, qb, rb);
    MulLess(a, rb, b);
    Remainder(n, a * b, qb, a * rb + r);
  }

  const PAGE_SIZE: nat := 4096

  lemma {:induction false} Smaller<T>(a: set<T>, b: set<T>)
    requires a <= b
    ensures |a| <= |b| && (a != b ==> |a| < |b|)
  {
    assert b == a + (b - a);
    assert a != b ==> b - a != {};
  }

  /** The list without the first x, as list_del leaves it. */
  function Unlink<T(==)>(list: seq<T>, x: T): seq<T> {
    if list == [] then [] else if list[0] == x then list[1..] else [list[0]] + Unlink(list[1..], x)
  }

  lemma {:induction false} UnlinkBetween<T>(before: seq<T>, x: T, after: seq<T>)
    requires x !in before
    ensures Unlink(before + [x] + after, x) == before + after
  {
    var list := before + [x] + after;
    if before == [] {
      assert list[1..] == after;
    } else {
      assert list[1..] == before[1..] + [x] + after;
      UnlinkBetween(before[1..], x, after);
      assert [before[0]] + (before[1..] + after) == before + after;
    }
  }
}
