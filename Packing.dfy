/** Positional radix packing of an id tuple into one integer, the key encoding of the
    packed-integer n-gram indexes. */
module Packing {

  function Pow(b: nat, e: nat): nat
  {
    if e == 0 then 1 else b * Pow(b, e - 1)
  }

  /** Every id is a digit of the radix. */
  predicate Below(ids: seq<nat>, base: nat)
  {
    forall i :: 0 <= i < |ids| ==> ids[i] < base
  }

  /** The packed key Σ ids[i]·base^(|ids|-1-i), by Horner's rule. */
  function Pack(ids: seq<nat>, base: nat): nat
  {
    if ids == [] then 0 else Pack(ids[..|ids| - 1], base) * base + ids[|ids| - 1]
  }

  lemma MulLe(a: nat, c: nat, b: nat)
    requires a <= c
    ensures a * b <= c * b
  {
  }

  lemma PowPositive(b: nat, e: nat)
    requires b > 0
    ensures Pow(b, e) > 0
  {
    if e > 0 {
      PowPositive(b, e - 1);
      MulLe(1, b, Pow(b, e - 1));
    }
  }

  lemma {:induction false} PowMonotone(b: nat, e: nat, f: nat)
    requires b > 0 && e <= f
    ensures Pow(b, e) <= Pow(b, f)
  {
    if e < f {
      PowMonotone(b, e, f - 1);
      PowPositive(b, f - 1);
      MulLe(1, b, Pow(b, f - 1));
    }
  }

  /** Division by a positive radix is unique. */
  lemma DivModUnique(q1: nat, r1: nat, q2: nat, r2: nat, b: nat)
    requires r1 < b && r2 < b
    requires q1 * b + r1 == q2 * b + r2
    ensures q1 == q2 && r1 == r2
  {
    if q1 < q2 {
      MulLe(q1 + 1, q2, b);
      assert false;
    } else if q2 < q1 {
      MulLe(q2 + 1, q1, b);
      assert false;
    }
  }

  lemma ModOfMultiplePlus(a: nat, w: nat, r: nat)
    requires r < w
    ensures (a * w + r) % w == r
  {
    var q, m := (a * w + r) / w, (a * w + r) % w;
    assert q * w + m == a * w + r;
    DivModUnique(q, m, a, r, w);
  }

  /** One more digit stays below the next power. */
  lemma DigitBelow(p: nat, x: nat, w: nat, b: nat)
    requires p < w && x < b
    ensures p * b + x < b * w
  {
    MulLe(p + 1, w, b);
    assert (p + 1) * b == p * b + b;
  }

  lemma Regroup(a: nat, w: nat, r: nat, b: nat, x: nat)
    ensures (a * w + r) * b + x == a * (b * w) + (r * b + x)
  {
    assert (a * w + r) * b == a * w * b + r * b;
  }

  lemma Factor(p: nat, b: nat, w: nat, x: nat)
    ensures p * (b * w) + x * w == (p * b + x) * w
  {
  }

  lemma PackSnoc(s: seq<nat>, x: nat, base: nat)
    ensures Pack(s + [x], base) == Pack(s, base) * base + x
  {
    assert (s + [x])[..|s|] == s;
  }

  /** A tuple of digits packs below base^|ids|. */
  lemma {:induction false} PackBound(ids: seq<nat>, base: nat)
    requires Below(ids, base)
    ensures Pack(ids, base) < Pow(base, |ids|)
  {
    if ids != [] {
      var init := ids[..|ids| - 1];
      PackBound(init, base);
      var p, x, w := Pack(init, base), ids[|ids| - 1], Pow(base, |init|);
      assert Pack(ids, base) == p * base + x;
      assert Pow(base, |ids|) == base * w;
      DigitBelow(p, x, w, base);
    }
  }

  /** Reading the packing from the front: the leading id carries weight base^(|ids|-1). */
  lemma {:induction false} PackFront(ids: seq<nat>, base: nat)
    requires |ids| > 0
    ensures Pack(ids, base) == ids[0] * Pow(base, |ids| - 1) + Pack(ids[1..], base)
  {
    if |ids| > 1 {
      var init := ids[..|ids| - 1];
      PackFront(init, base);
      assert init[1..] == ids[1..][..|ids| - 2];
      calc {
        Pack(ids, base);
        Pack(init, base) * base + ids[|ids| - 1];
        (ids[0] * Pow(base, |ids| - 2) + Pack(init[1..], base)) * base + ids[|ids| - 1];
        { Regroup(ids[0], Pow(base, |ids| - 2), Pack(init[1..], base), base, ids[|ids| - 1]); }
        ids[0] * (base * Pow(base, |ids| - 2)) + (Pack(init[1..], base) * base + ids[|ids| - 1]);
        ids[0] * Pow(base, |ids| - 1) + Pack(ids[1..], base);
      }
    } else {
      assert ids[1..] == [];
      assert ids[..0] == [];
    }
  }

  /** Packing injectivity: equal-length tuples of digits pack to equal integers only if equal. */
  lemma {:induction false} PackInjective(a: seq<nat>, b: seq<nat>, base: nat)
    requires |a| == |b| && Below(a, base) && Below(b, base)
    requires Pack(a, base) == Pack(b, base)
    ensures a == b
  {
    if a != [] {
      var a', b' := a[..|a| - 1], b[..|b| - 1];
      DivModUnique(Pack(a', base), a[|a| - 1], Pack(b', base), b[|b| - 1], base);
      PackInjective(a', b', base);
      assert a == a' + [a[|a| - 1]] && b == b' + [b[|b| - 1]];
    }
  }

  /** A full tuple of digits reaches base^(|ids|-1) exactly when its leading id is non-zero. */
  lemma PackLeading(ids: seq<nat>, base: nat)
    requires |ids| > 0 && Below(ids, base)
    ensures Pack(ids, base) >= Pow(base, |ids| - 1) <==> ids[0] >= 1
  {
    PackFront(ids, base);
    PackBound(ids[1..], base);
    if ids[0] >= 1 {
      MulLe(1, ids[0], Pow(base, |ids| - 1));
    }
  }

  /** Reducing a full tuple modulo base^(|ids|-1) drops its leading id. */
  lemma PackDropFirst(ids: seq<nat>, base: nat)
    requires |ids| > 0 && Below(ids, base)
    ensures Pow(base, |ids| - 1) > 0
    ensures Pack(ids, base) % Pow(base, |ids| - 1) == Pack(ids[1..], base)
  {
    assert ids[0] < base;
    PowPositive(base, |ids| - 1);
    PackFront(ids, base);
    PackBound(ids[1..], base);
    ModOfMultiplePlus(ids[0], Pow(base, |ids| - 1), Pack(ids[1..], base));
  }

  /** The query-side loop: `ngram_int += idx * MAX ** (n - 1 - i)` over the query ids.
      It computes the same integer as the Horner packing the index builders use. */
  method PackQuery(query: seq<nat>, base: nat) returns (ngramInt: nat)
    ensures ngramInt == Pack(query, base)
  {
    var n := |query|;
    ngramInt := 0;
    var i := 0;
    while i < n
      invariant 0 <= i <= n
      invariant ngramInt == Pack(query[..i], base) * Pow(base, n - i)
    {
      PackSnoc(query[..i], query[i], base);
      assert query[..i + 1] == query[..i] + [query[i]];
      calc {
        ngramInt + query[i] * Pow(base, n - 1 - i);
        Pack(query[..i], base) * (base * Pow(base, n - 1 - i)) + query[i] * Pow(base, n - 1 - i);
        { Factor(Pack(query[..i], base), base, Pow(base, n - 1 - i), query[i]); }
        (Pack(query[..i], base) * base + query[i]) * Pow(base, n - 1 - i);
        Pack(query[..i + 1], base) * Pow(base, n - (i + 1));
      }
      ngramInt := ngramInt + query[i] * Pow(base, n - 1 - i);
      i := i + 1;
    }
    assert query[..n] == query;
  }
}
