/** Value types and sequence helpers shared by every part of the n-gram model. */
module Common {

  datatype Option<T> = None | Some(value: T)

  /** The Python exceptions the modelled code raises and nobody catches. */
  datatype Error =
    | AssertionError(msg: string)
    | KeyError
    | ZeroDivisionError
    | ValueError
    | AttributeError

  datatype Result<T> = Ok(value: T) | Err(error: Error)

  /** A call that returns nothing but may raise. */
  datatype Outcome = Pass | Fail(error: Error)

  /** The windows of length n of s, in order: what `zip(*[s[k:] for k in range(n)])`
      yields. With n == 0 the zip has no arguments and yields nothing. */
  function Windows<T>(s: seq<T>, n: nat): (r: seq<seq<T>>)
    ensures |r| == if n == 0 || |s| < n then 0 else |s| - n + 1
    ensures forall i :: 0 <= i < |r| ==> r[i] == s[i..i + n]
  {
    if n == 0 || |s| < n then [] else [s[..n]] + Windows(s[1..], n)
  }

  /** k sits in s at position i. */
  ghost predicate At<T>(k: seq<T>, s: seq<T>, i: nat)
  {
    i + |k| <= |s| && s[i..i + |k|] == k
  }

  /** k is a contiguous piece of s. */
  ghost predicate OccursIn<T>(k: seq<T>, s: seq<T>)
  {
    exists i: nat :: At(k, s, i)
  }

  /** Window membership: the windows of s are exactly its contiguous pieces of length n. */
  lemma WindowsMembership<T>(s: seq<T>, n: nat, k: seq<T>)
    ensures k in Windows(s, n) <==> n > 0 && |k| == n && OccursIn(k, s)
  {
    var r := Windows(s, n);
    if n > 0 && |k| == n && OccursIn(k, s) {
      var i: nat :| At(k, s, i);
      assert r[i] == k;
    }
    if k in r {
      var i :| 0 <= i < |r| && r[i] == k;
      assert At(k, s, i);
    }
  }

  /** Appending one element adds exactly one window at the end (once s + [x] is long enough). */
  lemma {:induction false} WindowsSnoc<T>(s: seq<T>, x: T, n: nat)
    requires n > 0
    ensures |s| + 1 < n ==> Windows(s + [x], n) == []
    ensures |s| + 1 >= n ==> Windows(s + [x], n) == Windows(s, n) + [(s + [x])[|s| + 1 - n..]]
  {
    var t := s + [x];
    if |t| >= n {
      var a := Windows(t, n);
      var b := Windows(s, n) + [t[|t| - n..]];
      assert |a| == |b|;
      forall i | 0 <= i < |a|
        ensures a[i] == b[i]
      {
        if i < |a| - 1 {
          assert t[i..i + n] == s[i..i + n];
        }
      }
    }
  }

  /** The windows of s are those of all but its last element, then the final window. */
  lemma WindowsLast<T>(s: seq<T>, n: nat)
    requires n > 0 && |s| >= n
    ensures Windows(s, n) == Windows(s[..|s| - 1], n) + [s[|s| - n..]]
  {
    var init, x := s[..|s| - 1], s[|s| - 1];
    var t := init + [x];
    calc {
      Windows(s, n);
      { assert s == t; }
      Windows(t, n);
      { WindowsSnoc(init, x, n); }
      Windows(init, n) + [t[|init| + 1 - n..]];
      { assert t[|init| + 1 - n..] == s[|s| - n..]; }
      Windows(init, n) + [s[|s| - n..]];
    }
  }

  /** Applying f element-wise. */
  function MapSeq<A, B>(f: A -> B, s: seq<A>): (r: seq<B>)
    ensures |r| == |s| && forall i :: 0 <= i < |s| ==> r[i] == f(s[i])
  {
    seq(|s|, i requires 0 <= i < |s| => f(s[i]))
  }

  /** One more element taken from the front of s. */
  lemma TakeSnoc<T>(s: seq<T>, k: nat)
    requires k < |s|
    ensures s[..k + 1] == s[..k] + [s[k]]
  {
  }

  /** Mapping every word of a window is the same as taking the window of the mapped
      sequence: windowing commutes with element-wise maps. */
  lemma WindowsOfMap<A, B>(f: A -> B, s: seq<A>, n: nat)
    ensures Windows(MapSeq(f, s), n) == MapSeq((w: seq<A>) => MapSeq(f, w), Windows(s, n))
  {
    var l := Windows(MapSeq(f, s), n);
    var r := MapSeq((w: seq<A>) => MapSeq(f, w), Windows(s, n));
    assert |l| == |r|;
    forall i | 0 <= i < |l|
      ensures l[i] == r[i]
    {
      assert l[i] == MapSeq(f, s)[i..i + n];
      assert r[i] == MapSeq(f, s[i..i + n]);
    }
  }

  /** How many windows of length |k| of s equal k. */
  function Occurrences<T(==)>(k: seq<T>, s: seq<T>): nat
  {
    multiset(Windows(s, |k|))[k]
  }

  /** A map that is injective on S and carries S onto T makes the two sets equally large. */
  lemma {:induction false} InjectiveCard<A, B>(S: set<A>, T: set<B>, f: map<A, B>)
    requires S <= f.Keys
    requires forall a :: a in S ==> f[a] in T
    requires forall b :: b in T ==> exists a :: a in S && f[a] == b
    requires forall a, a' :: a in S && a' in S && f[a] == f[a'] ==> a == a'
    ensures |S| == |T|
    decreases S
  {
    if S == {} {
      assert T == {} by {
        if b :| b in T {
          assert false;
        }
      }
    } else {
      var a :| a in S;
      var S', T' := S - {a}, T - {f[a]};
      forall b | b in T'
        ensures exists a' :: a' in S' && f[a'] == b
      {
        var x :| x in S && f[x] == b;
        assert x in S';
      }
      InjectiveCard(S', T', f);
    }
  }

  /** The ids 0..n-1, as a set of n elements. */
  function Range(n: nat): (r: set<nat>)
    ensures forall i: int :: i in r <==> 0 <= i < n
    ensures |r| == n
  {
    if n == 0 then {} else Range(n - 1) + {n - 1}
  }

  predicate Distinct<T(==)>(s: seq<T>)
  {
    forall i, j :: 0 <= i < j < |s| ==> s[i] != s[j]
  }

  /** A repetition-free sequence has as many elements as its set. */
  lemma {:induction false} DistinctCard<T>(s: seq<T>)
    requires Distinct(s)
    ensures |set x | x in s| == |s|
  {
    if s != [] {
      var init := s[..|s| - 1];
      DistinctCard(init);
      assert (set x | x in s) == (set x | x in init) + {s[|s| - 1]};
      assert s[|s| - 1] !in init;
    }
  }
}
