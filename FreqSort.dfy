/** `sort_dict_by_value(wrd_freq)`: the ids of a frequency table ordered by descending
    frequency. Python's `sorted(..., reverse=True)` is stable, so ids of equal frequency
    keep their insertion order, which for `wrd_freq` is ascending id order. */
module FreqSort {
  import opened Common

  /** Id i precedes id j: higher frequency first, ties by smaller id. A strict total order
      on the ids, so exactly one ordering of the ids is sorted by it. */
  predicate Before(f: seq<nat>, i: nat, j: nat)
    requires i < |f| && j < |f|
  {
    f[i] > f[j] || (f[i] == f[j] && i < j)
  }

  predicate InRange(f: seq<nat>, s: seq<nat>)
  {
    forall k :: 0 <= k < |s| ==> s[k] < |f|
  }

  predicate SortedBy(f: seq<nat>, s: seq<nat>)
    requires InRange(f, s)
  {
    forall a, b :: 0 <= a < b < |s| ==> Before(f, s[a], s[b])
  }

  lemma BeforeTotal(f: seq<nat>, i: nat, j: nat, k: nat)
    requires i < |f| && j < |f| && k < |f|
    ensures i != j ==> Before(f, i, j) || Before(f, j, i)
    ensures !Before(f, i, i)
    ensures Before(f, i, j) && Before(f, j, k) ==> Before(f, i, k)
  {
  }

  /** Insert id x into an ordering sorted by Before. */
  function Insert(f: seq<nat>, x: nat, s: seq<nat>): (r: seq<nat>)
    requires x < |f| && InRange(f, s)
    ensures |r| == |s| + 1 && InRange(f, r)
    ensures forall y :: y in r <==> y == x || y in s
  {
    if s == [] then [x]
    else if Before(f, x, s[0]) then [x] + s
    else [s[0]] + Insert(f, x, s[1..])
  }

  lemma {:induction false} InsertSorted(f: seq<nat>, x: nat, s: seq<nat>)
    requires x < |f| && InRange(f, s) && SortedBy(f, s) && x !in s
    ensures SortedBy(f, Insert(f, x, s))
  {
    if s == [] {
    } else if Before(f, x, s[0]) {
      var r := [x] + s;
      forall a, b | 0 <= a < b < |r|
        ensures Before(f, r[a], r[b])
      {
        assert r[b] == s[b - 1];
        if a == 0 {
          if b > 1 {
            assert Before(f, s[0], s[b - 1]);
            BeforeTotal(f, x, s[0], s[b - 1]);
          }
        } else {
          assert r[a] == s[a - 1];
        }
      }
    } else {
      var t := s[1..];
      assert x !in t;
      assert SortedBy(f, t) by {
        forall a, b | 0 <= a < b < |t|
          ensures Before(f, t[a], t[b])
        {
          assert t[a] == s[a + 1] && t[b] == s[b + 1];
        }
      }
      InsertSorted(f, x, t);
      var it := Insert(f, x, t);
      var r := [s[0]] + it;
      forall a, b | 0 <= a < b < |r|
        ensures Before(f, r[a], r[b])
      {
        assert r[b] == it[b - 1];
        if a == 0 {
          assert it[b - 1] in it;
          if it[b - 1] == x {
            BeforeTotal(f, x, s[0], x);
          } else {
            var k :| 0 <= k < |t| && t[k] == it[b - 1];
            assert s[k + 1] == t[k];
          }
        } else {
          assert r[a] == it[a - 1];
        }
      }
    }
  }

  function SortPrefix(f: seq<nat>, n: nat): (r: seq<nat>)
    requires n <= |f|
    ensures |r| == n && InRange(f, r)
    ensures forall y: int :: y in r <==> 0 <= y < n
  {
    if n == 0 then [] else Insert(f, n - 1, SortPrefix(f, n - 1))
  }

  lemma {:induction false} SortPrefixSorted(f: seq<nat>, n: nat)
    requires n <= |f|
    ensures SortedBy(f, SortPrefix(f, n))
  {
    if n > 0 {
      SortPrefixSorted(f, n - 1);
      InsertSorted(f, n - 1, SortPrefix(f, n - 1));
    }
  }

  /** The ids 0..|f|-1, each exactly once, in descending frequency with ties in ascending id
      order: the order Python's stable reverse sort produces. */
  function SortByFreq(f: seq<nat>): (order: seq<nat>)
    ensures |order| == |f| && InRange(f, order) && Distinct(order)
    ensures forall i: int :: i in order <==> 0 <= i < |f|
  {
    SortPrefixSorted(f, |f|);
    var order := SortPrefix(f, |f|);
    forall a, b | 0 <= a < b < |order|
      ensures order[a] != order[b]
    {
      BeforeTotal(f, order[a], order[b], order[b]);
    }
    order
  }

  /** The order is by descending frequency, ties by ascending id. */
  lemma SortByFreqSorted(f: seq<nat>)
    ensures SortedBy(f, SortByFreq(f))
  {
    SortPrefixSorted(f, |f|);
  }

  /** Only one ordering of the ids is sorted by Before: any sort of the ids by descending
      frequency that keeps ties in id order yields the same sequence. */
  lemma {:induction false} SortedUnique(f: seq<nat>, s: seq<nat>, t: seq<nat>)
    requires InRange(f, s) && InRange(f, t) && SortedBy(f, s) && SortedBy(f, t)
    requires forall i :: i in s <==> i in t
    requires Distinct(s) && Distinct(t)
    ensures s == t
  {
    if s != [] {
      assert s[0] in s;
    }
    if t != [] {
      assert t[0] in t;
    }
    if s != [] && t != [] {
      assert s[0] == t[0] by {
        var a :| 0 <= a < |s| && s[a] == t[0];
        var b :| 0 <= b < |t| && t[b] == s[0];
        BeforeTotal(f, s[0], t[0], s[0]);
      }
      forall i
        ensures i in s[1..] <==> i in t[1..]
      {
        if i in s[1..] {
          var a :| 0 <= a < |s| - 1 && s[1..][a] == i;
          assert s[a + 1] == i && i != s[0];
          assert i in t;
          var b :| 0 <= b < |t| && t[b] == i;
          assert b != 0;
          assert t[1..][b - 1] == i;
        }
        if i in t[1..] {
          var b :| 0 <= b < |t| - 1 && t[1..][b] == i;
          assert t[b + 1] == i && i != t[0];
          assert i in s;
          var a :| 0 <= a < |s| && s[a] == i;
          assert a != 0;
          assert s[1..][a - 1] == i;
        }
      }
      SortedUnique(f, s[1..], t[1..]);
      assert s == [s[0]] + s[1..] && t == [t[0]] + t[1..];
    }
  }
}
