/**
 * The prefix-count trie. Every node counts the n-grams whose path runs
 * through it, so a trie filled with trigrams also answers bigram and
 * unigram counts. Node values are immutable here; the `Trie` class holds
 * the root that `AddNgram` replaces, together with the ghost history of
 * inserted n-grams that gives the counts their meaning.
 */
module Trie {
  import opened Common

  datatype Node = Node(freq: nat, children: map<nat, Node>)

  const Leaf := Node(0, map[])

  /** add_ngram: one more count here and at every node on g's path, creating missing children. */
  function Insert(t: Node, g: seq<nat>): Node
    decreases |g|
  {
    if |g| == 0 then Node(t.freq + 1, t.children)
    else
      var child := if g[0] in t.children then t.children[g[0]] else Leaf;
      Node(t.freq + 1, t.children[g[0] := Insert(child, g[1..])])
  }

  /** get_ngram_freq: the count at the end of g's path, 0 when the path is missing. */
  function NgramFreq(t: Node, g: seq<nat>): nat
    decreases |g|
  {
    if |g| == 0 then t.freq
    else if g[0] !in t.children then 0
    else NgramFreq(t.children[g[0]], g[1..])
  }

  /** get_ngram_last_node: the node at the end of g's path, None when the path is missing. */
  function LastNode(t: Node, g: seq<nat>): Option<Node>
    decreases |g|
  {
    if |g| == 0 then Some(t)
    else if g[0] !in t.children then None
    else LastNode(t.children[g[0]], g[1..])
  }

  /** Every path from t to one of its nodes. */
  ghost function Paths(t: Node): set<seq<nat>>
  {
    {[]} + (set k, p | k in t.children && p in Paths(t.children[k]) :: [k] + p)
  }

  /** How many of the n-grams in gs start with p. */
  function PrefixCount(gs: seq<seq<nat>>, p: seq<nat>): nat
  {
    if |gs| == 0 then 0
    else PrefixCount(gs[..|gs| - 1], p) + (if p <= gs[|gs| - 1] then 1 else 0)
  }

  // ---------------------------------------------------------------------
  // Lookups
  // ---------------------------------------------------------------------

  /** The two lookups agree: the frequency is the end node's count, and 0 exactly where no node is found. */
  lemma {:induction false} FreqIsLastNode(t: Node, g: seq<nat>)
    ensures NgramFreq(t, g) == (if LastNode(t, g).Some? then LastNode(t, g).value.freq else 0)
    decreases |g|
  {
    if |g| > 0 && g[0] in t.children {
      FreqIsLastNode(t.children[g[0]], g[1..]);
    }
  }

  lemma LastNodeCons(t: Node, k: nat, q: seq<nat>)
    ensures LastNode(t, [k] + q) == if k in t.children then LastNode(t.children[k], q) else None
  {
    assert ([k] + q)[0] == k && ([k] + q)[1..] == q;
  }

  /** Following a then b is following a + b. */
  lemma {:induction false} LastNodeAppend(t: Node, a: seq<nat>, b: seq<nat>)
    ensures LastNode(t, a + b) == if LastNode(t, a).Some? then LastNode(LastNode(t, a).value, b) else None
    decreases |a|
  {
    if |a| == 0 {
      assert a + b == b;
    } else {
      assert a + b == [a[0]] + (a[1..] + b);
      LastNodeCons(t, a[0], a[1..] + b);
      if a[0] in t.children {
        LastNodeAppend(t.children[a[0]], a[1..], b);
      }
    }
  }

  /** A path belongs to the trie exactly when get_ngram_last_node finds a node for it. */
  lemma {:induction false} PathsAreFound(t: Node, p: seq<nat>)
    ensures p in Paths(t) <==> LastNode(t, p).Some?
    decreases |p|
  {
    if |p| > 0 {
      var k, q := p[0], p[1..];
      assert p == [k] + q;
      LastNodeCons(t, k, q);
      if k in t.children {
        PathsAreFound(t.children[k], q);
        if LastNode(t, p).Some? {
          assert q in Paths(t.children[k]);
        }
      }
      if p in Paths(t) {
        var k', q' :| k' in t.children && q' in Paths(t.children[k']) && p == [k'] + q';
        assert k' == k && q' == q;
        PathsAreFound(t.children[k], q);
      }
    }
  }

  lemma {:induction false} LeafCountsNothing(g: seq<nat>)
    ensures NgramFreq(Leaf, g) == 0 && (g != [] ==> LastNode(Leaf, g).None?)
  {
  }

  // ---------------------------------------------------------------------
  // Insertion
  // ---------------------------------------------------------------------

  /** After add_ngram(g) the count of every prefix of g, the empty one included, rises by one; no other count changes. */
  lemma {:induction false} InsertFreq(t: Node, g: seq<nat>, p: seq<nat>)
    ensures NgramFreq(Insert(t, g), p) == NgramFreq(t, p) + (if p <= g then 1 else 0)
    decreases |g|
  {
    if |p| > 0 && |g| > 0 && p[0] == g[0] {
      var child := if g[0] in t.children then t.children[g[0]] else Leaf;
      InsertFreq(child, g[1..], p[1..]);
      if g[0] !in t.children {
        LeafCountsNothing(p[1..]);
      }
      assert p <= g <==> p[1..] <= g[1..] by {
        assert p == [p[0]] + p[1..] && g == [g[0]] + g[1..];
      }
    }
  }

  /** add_ngram(g) creates the nodes on g's path and no others. */
  lemma {:induction false} InsertLastNode(t: Node, g: seq<nat>, p: seq<nat>)
    requires p != []
    ensures LastNode(Insert(t, g), p).Some? <==> LastNode(t, p).Some? || p <= g
    decreases |g|
  {
    if |g| > 0 && p[0] == g[0] {
      var child := if g[0] in t.children then t.children[g[0]] else Leaf;
      if p[1..] != [] {
        InsertLastNode(child, g[1..], p[1..]);
        if g[0] !in t.children {
          LeafCountsNothing(p[1..]);
        }
      }
      assert p <= g <==> p[1..] <= g[1..] by {
        assert p == [p[0]] + p[1..] && g == [g[0]] + g[1..];
      }
    }
  }

  lemma PrefixCountSnoc(gs: seq<seq<nat>>, g: seq<nat>, p: seq<nat>)
    ensures PrefixCount(gs + [g], p) == PrefixCount(gs, p) + (if p <= g then 1 else 0)
  {
    assert (gs + [g])[..|gs|] == gs;
  }

  /** An n-gram that was added is counted under each of its own prefixes. */
  lemma {:induction false} PrefixCountMember(gs: seq<seq<nat>>, i: nat, p: seq<nat>)
    requires i < |gs| && p <= gs[i]
    ensures PrefixCount(gs, p) > 0
    decreases |gs|
  {
    if i < |gs| - 1 {
      PrefixCountMember(gs[..|gs| - 1], i, p);
    }
  }

  /** A positive count names an added n-gram that starts with p. */
  lemma {:induction false} PrefixCountWitness(gs: seq<seq<nat>>, p: seq<nat>) returns (i: nat)
    requires PrefixCount(gs, p) > 0
    ensures i < |gs| && p <= gs[i]
    decreases |gs|
  {
    if p <= gs[|gs| - 1] {
      i := |gs| - 1;
    } else {
      i := PrefixCountWitness(gs[..|gs| - 1], p);
    }
  }

  /** A longer prefix is shared by no more n-grams than a shorter one. */
  lemma {:induction false} PrefixCountShrinks(gs: seq<seq<nat>>, p: seq<nat>, k: nat)
    ensures PrefixCount(gs, p + [k]) <= PrefixCount(gs, p)
    decreases |gs|
  {
    if |gs| > 0 {
      PrefixCountShrinks(gs[..|gs| - 1], p, k);
      var g := gs[|gs| - 1];
      if p + [k] <= g {
        assert p <= g by {
          assert forall x :: 0 <= x < |p| ==> p[x] == (p + [k])[x];
        }
      }
    }
  }

  // ---------------------------------------------------------------------
  // Depth
  // ---------------------------------------------------------------------

  /**
   * get_depth: 0 for a node without children, otherwise one more than
   * the deepest child, which is the length of the longest path.
   */
  method Depth(t: Node) returns (d: nat)
    ensures forall p :: LastNode(t, p).Some? ==> |p| <= d
    ensures exists p :: LastNode(t, p).Some? && |p| == d
    decreases t
  {
    assert LastNode(t, []).Some?;
    if |t.children| == 0 {
      forall p | LastNode(t, p).Some?
        ensures |p| <= 0
      {
      }
      return 0;
    }
    var depth := 0;
    var ks := t.children.Keys;
    ghost var deepest: seq<nat> := [];
    while ks != {}
      invariant ks <= t.children.Keys
      invariant forall k, q :: k in t.children.Keys - ks && LastNode(t.children[k], q).Some? ==> |q| <= depth
      invariant depth == 0 || (LastNode(t, deepest).Some? && |deepest| == depth + 1)
      decreases ks
    {
      var k := Pick(ks);
      var childDepth := Depth(t.children[k]);
      ghost var q :| LastNode(t.children[k], q).Some? && |q| == childDepth;
      LastNodeCons(t, k, q);
      if childDepth > depth {
        depth := childDepth;
        deepest := [k] + q;
      }
      ks := ks - {k};
    }
    d := 1 + depth;
    forall p | LastNode(t, p).Some?
      ensures |p| <= d
    {
      if p != [] {
        assert p == [p[0]] + p[1..];
        LastNodeCons(t, p[0], p[1..]);
      }
    }
    if depth == 0 {
      var k := Pick(t.children.Keys);
      LastNodeCons(t, k, []);
      assert LastNode(t, [k] + []).Some? && |[k] + []| == d;
    } else {
      assert LastNode(t, deepest).Some? && |deepest| == d;
    }
  }

  // ---------------------------------------------------------------------
  // The trie object
  // ---------------------------------------------------------------------

  /** Whether some entry of paths starts some prefix of p. */
  predicate Covered(paths: seq<seq<nat>>, p: seq<nat>)
  {
    exists i :: 0 <= i < |paths| && paths[i] <= p
  }

  class Trie {
    var root: Node
    /** The n-grams added so far, in order. */
    ghost var ngrams: seq<seq<nat>>

    /** Each count is the number of added n-grams through that node, and the nodes are exactly their prefixes. */
    ghost predicate Valid()
      reads this
    {
      (forall p :: NgramFreq(root, p) == PrefixCount(ngrams, p)) &&
      (forall p :: p != [] ==> (LastNode(root, p).Some? <==> PrefixCount(ngrams, p) > 0))
    }

    /** __init__: a root without children and with count 0. */
    constructor ()
      ensures Valid() && ngrams == [] && root == Leaf
    {
      root := Leaf;
      ngrams := [];
      new;
      forall p
        ensures NgramFreq(root, p) == PrefixCount(ngrams, p)
        ensures p != [] ==> (LastNode(root, p).Some? <==> PrefixCount(ngrams, p) > 0)
      {
        LeafCountsNothing(p);
      }
    }

    /** add_ngram: records g; the count of each prefix of g rises by one and nothing else changes. */
    method AddNgram(g: seq<nat>)
      requires Valid()
      modifies this
      ensures Valid() && ngrams == old(ngrams) + [g]
      ensures forall p :: NgramFreq(root, p) == old(NgramFreq(root, p)) + (if p <= g then 1 else 0)
      ensures root.freq == old(root.freq) + 1
    {
      forall p
        ensures NgramFreq(Insert(root, g), p) == NgramFreq(root, p) + (if p <= g then 1 else 0)
        ensures NgramFreq(Insert(root, g), p) == PrefixCount(ngrams + [g], p)
        ensures p != [] ==> (LastNode(Insert(root, g), p).Some? <==> PrefixCount(ngrams + [g], p) > 0)
      {
        InsertFreq(root, g, p);
        PrefixCountSnoc(ngrams, g, p);
        if p != [] {
          InsertLastNode(root, g, p);
        }
      }
      InsertFreq(root, g, []);
      root := Insert(root, g);
      ngrams := ngrams + [g];
    }

    /** get_ngram_freq: how many added n-grams start with g (the root counts all of them). */
    function GetNgramFreq(g: seq<nat>): (r: nat)
      reads this
      requires Valid()
      ensures r == PrefixCount(ngrams, g)
      ensures g == [] ==> r == |ngrams|
    {
      PrefixCountAll(ngrams);
      NgramFreq(root, g)
    }

    /** get_ngram_last_node: a node exactly when some added n-gram starts with g, carrying that count. */
    function GetNgramLastNode(g: seq<nat>): (r: Option<Node>)
      reads this
      requires Valid()
      ensures g != [] ==> (r.Some? <==> PrefixCount(ngrams, g) > 0)
      ensures r.Some? ==> r.value.freq == PrefixCount(ngrams, g)
    {
      FreqIsLastNode(root, g);
      LastNode(root, g)
    }

    /** A child never counts more than its parent. */
    lemma ChildFreqBounded(p: seq<nat>, k: nat)
      requires Valid()
      ensures GetNgramFreq(p + [k]) <= GetNgramFreq(p)
    {
      PrefixCountShrinks(ngrams, p, k);
    }

    /** get_depth on the root: the length of the longest added n-gram. */
    method GetDepth() returns (d: nat)
      requires Valid()
      ensures forall i :: 0 <= i < |ngrams| ==> |ngrams[i]| <= d
      ensures d == 0 || exists i :: 0 <= i < |ngrams| && |ngrams[i]| == d
    {
      d := Depth(root);
      forall i | 0 <= i < |ngrams|
        ensures |ngrams[i]| <= d
      {
        if ngrams[i] != [] {
          PrefixCountMember(ngrams, i, ngrams[i]);
        }
      }
      if d > 0 {
        var p :| LastNode(root, p).Some? && |p| == d;
        var i := PrefixCountWitness(ngrams, p);
        assert |ngrams[i]| == d;
      }
    }

    /**
     * bfs(n): walks the trie level by level with a queue of nodes and a
     * parallel queue of their paths, recording every path of length n
     * with its node's count.
     */
    method Bfs(n: int) returns (res: map<seq<nat>, nat>)
      ensures forall p :: p in res <==> |p| == n && LastNode(root, p).Some?
      ensures forall p :: p in res ==> res[p] == NgramFreq(root, p)
    {
      res := map[];
      var q := [root];
      var ngramsQ: seq<seq<nat>> := [[]];
      ghost var visited: set<seq<nat>> := {};
      forall p | LastNode(root, p).Some?
        ensures Covered(ngramsQ, p)
      {
        assert ngramsQ[0] <= p;
      }
      while |q| > 0
        invariant Scanning(root, n, q, ngramsQ, res, visited)
        decreases |Paths(root) - visited|
      {
        q, ngramsQ, res, visited := Visit(root, n, q, ngramsQ, res, visited);
      }
      forall p | p in res
        ensures res[p] == NgramFreq(root, p)
      {
        FreqIsLastNode(root, p);
      }
    }
  }

  /**
   * The bfs queues: each queued path leads to its queued node, and no
   * queued path starts a path already dequeued.
   */
  ghost predicate Queued(root: Node, q: seq<Node>, ngramsQ: seq<seq<nat>>, visited: set<seq<nat>>)
  {
    |q| == |ngramsQ| &&
    (forall i :: 0 <= i < |q| ==> LastNode(root, ngramsQ[i]) == Some(q[i])) &&
    (forall i, v :: 0 <= i < |ngramsQ| && v in visited ==> !(ngramsQ[i] <= v)) &&
    (forall i, j :: 0 <= i < j < |ngramsQ| ==> Apart(ngramsQ[i], ngramsQ[j]))
  }

  /** The bfs result so far: the dequeued paths of length n, each with its node's count. */
  ghost predicate Recorded(root: Node, res: map<seq<nat>, nat>, visited: set<seq<nat>>, n: int)
  {
    (forall p :: p in res <==> p in visited && |p| == n) &&
    (forall p :: p in res ==> LastNode(root, p).Some? && res[p] == LastNode(root, p).value.freq)
  }

  /** Dequeuing cur adds it to the result when its length is n; it was not there before. */
  lemma Record(root: Node, res: map<seq<nat>, nat>, visited: set<seq<nat>>, n: int, cur: seq<nat>, u: Node)
    requires Recorded(root, res, visited, n) && cur !in visited && LastNode(root, cur) == Some(u)
    ensures cur !in res
    ensures Recorded(root, if |cur| == n then res[cur := u.freq] else res, visited + {cur}, n)
  {
  }

  /** Neither path starts the other. */
  predicate Apart(a: seq<nat>, b: seq<nat>)
  {
    !(a <= b) && !(b <= a)
  }

  /** Dequeuing the head keeps the queues consistent, and the head path was never dequeued before. */
  lemma Pop(root: Node, q: seq<Node>, ngramsQ: seq<seq<nat>>, visited: set<seq<nat>>)
    requires Queued(root, q, ngramsQ, visited) && |q| > 0
    ensures ngramsQ[0] !in visited && LastNode(root, ngramsQ[0]) == Some(q[0])
    ensures Queued(root, q[1..], ngramsQ[1..], visited + {ngramsQ[0]})
    ensures forall i :: 0 <= i < |ngramsQ| - 1 ==> Apart(ngramsQ[0], ngramsQ[1..][i])
    ensures forall v :: v in visited + {ngramsQ[0]} && ngramsQ[0] <= v ==> v == ngramsQ[0]
  {
    assert ngramsQ[0] <= ngramsQ[0];
    forall i | 0 <= i < |ngramsQ| - 1
      ensures Apart(ngramsQ[0], ngramsQ[1..][i])
    {
      assert ngramsQ[1..][i] == ngramsQ[i + 1];
    }
  }

  /** The state between two rounds of the bfs loop: every path is either dequeued or below a queued one. */
  ghost predicate Scanning(root: Node, n: int, q: seq<Node>, ngramsQ: seq<seq<nat>>, res: map<seq<nat>, nat>, visited: set<seq<nat>>)
  {
    Queued(root, q, ngramsQ, visited) && visited <= Paths(root) && Recorded(root, res, visited, n) &&
    forall p :: LastNode(root, p).Some? ==> p in visited || Covered(ngramsQ, p)
  }

  /** One round of the bfs loop: dequeue a node and its path, record the path if its length is n, queue the children. */
  method Visit(ghost root: Node, n: int, q: seq<Node>, ngramsQ: seq<seq<nat>>, res: map<seq<nat>, nat>, ghost visited: set<seq<nat>>)
    returns (q': seq<Node>, ngramsQ': seq<seq<nat>>, res': map<seq<nat>, nat>, ghost visited': set<seq<nat>>)
    requires Scanning(root, n, q, ngramsQ, res, visited) && |q| > 0
    ensures Scanning(root, n, q', ngramsQ', res', visited')
    ensures |Paths(root) - visited'| < |Paths(root) - visited|
  {
    var u := q[0];
    var cur := ngramsQ[0];
    Pop(root, q, ngramsQ, visited);
    res' := res;
    if |cur| == n {
      // The accumulating branch never fires: each path is dequeued once.
      res' := res'[cur := u.freq];
    }
    visited' := visited + {cur};
    assert Recorded(root, res', visited', n) by {
      Record(root, res, visited, n, cur, u);
    }
    assert visited' <= Paths(root) && |Paths(root) - visited'| < |Paths(root) - visited| by {
      PathsAreFound(root, cur);
      FewerLeft(Paths(root), visited, cur);
    }
    ghost var rest := ngramsQ[1..];
    q', ngramsQ' := EnqueueChildren(root, u, cur, q[1..], ngramsQ[1..], visited');
    forall p | LastNode(root, p).Some?
      ensures p in visited' || Covered(ngramsQ', p)
    {
      if p !in visited' && !Covered(rest, p) {
        CoveredHead(ngramsQ, p);
        ThroughChild(root, u, cur, p);
      }
    }
  }

  /** Dequeuing a path not seen before leaves fewer paths to see. */
  lemma FewerLeft(all: set<seq<nat>>, seen: set<seq<nat>>, x: seq<nat>)
    requires x in all && x !in seen
    ensures |all - (seen + {x})| < |all - seen|
  {
    assert all - seen == (all - (seen + {x})) + {x};
  }

  /** A node below cur is reached through one of cur's children. */
  lemma ThroughChild(root: Node, u: Node, cur: seq<nat>, p: seq<nat>)
    requires LastNode(root, cur) == Some(u) && LastNode(root, p).Some? && cur <= p && p != cur
    ensures |cur| < |p| && p[|cur|] in u.children
  {
    PrefixOrLonger(cur, p);
    var k, tail := p[|cur|], p[|cur| + 1..];
    assert p == cur + ([k] + tail) by {
      assert p[..|cur|] == cur;
      SplitAt(p, |cur|);
    }
    LastNodeAppend(root, cur, [k] + tail);
    LastNodeCons(u, k, tail);
  }

  lemma PrefixOrLonger(a: seq<nat>, b: seq<nat>)
    ensures a <= b ==> a == b || |a| < |b|
  {
    if a <= b && |a| == |b| {
      assert a == b;
    }
  }

  lemma ChildForm(c: seq<nat>, x: seq<nat>)
    requires c < x && |x| == |c| + 1
    ensures x == c + [x[|c|]]
  {
    assert x[..|c|] == c;
  }

  lemma SplitAt(p: seq<nat>, i: nat)
    requires i < |p|
    ensures p == p[..i] + ([p[i]] + p[i + 1..])
  {
  }

  lemma CoveredHead(paths: seq<seq<nat>>, p: seq<nat>)
    requires Covered(paths, p) && |paths| > 0
    ensures paths[0] <= p || Covered(paths[1..], p)
  {
    var i :| 0 <= i < |paths| && paths[i] <= p;
    if i > 0 {
      assert paths[1..][i - 1] <= p;
    }
  }

  /** What a path's child can start, and what can start it. */
  lemma ExtensionPrefix(c: seq<nat>, k: nat, v: seq<nat>)
    ensures c + [k] <= v ==> c <= v && v != c
    ensures v <= c + [k] ==> v == c + [k] || v <= c
  {
    if c + [k] <= v {
      assert forall x :: 0 <= x < |c| ==> c[x] == (c + [k])[x];
    }
    if v <= c + [k] && v != c + [k] {
      assert forall x :: 0 <= x < |v| ==> v[x] == c[x];
    }
  }

  /** Children of one path are apart from each other. */
  lemma Siblings(c: seq<nat>, j: nat, k: nat)
    requires j != k
    ensures Apart(c + [j], c + [k])
  {
    assert (c + [j])[|c|] == j && (c + [k])[|c|] == k;
  }

  /** The inner loop of bfs: queue each child of u with its path. */
  method EnqueueChildren(ghost root: Node, u: Node, cur: seq<nat>, q: seq<Node>, ngramsQ: seq<seq<nat>>, ghost visited: set<seq<nat>>)
    returns (q': seq<Node>, ngramsQ': seq<seq<nat>>)
    requires Queued(root, q, ngramsQ, visited) && LastNode(root, cur) == Some(u)
    requires forall v :: v in visited && cur <= v ==> v == cur
    requires forall i :: 0 <= i < |ngramsQ| ==> Apart(cur, ngramsQ[i])
    ensures Queued(root, q', ngramsQ', visited)
    ensures forall p :: Covered(ngramsQ, p) ==> Covered(ngramsQ', p)
    ensures forall p :: cur < p && p[|cur|] in u.children ==> Covered(ngramsQ', p)
  {
    q', ngramsQ' := q, ngramsQ;
    var ks := u.children.Keys;
    while ks != {}
      invariant ks <= u.children.Keys
      invariant Queued(root, q', ngramsQ', visited)
      invariant forall i :: 0 <= i < |ngramsQ'| ==> Apart(cur, ngramsQ'[i]) || (cur < ngramsQ'[i] && |ngramsQ'[i]| == |cur| + 1)
      invariant forall i :: 0 <= i < |ngramsQ'| && cur < ngramsQ'[i] ==> ngramsQ'[i][|cur|] !in ks
      invariant forall p :: Covered(ngramsQ, p) ==> Covered(ngramsQ', p)
      invariant forall p :: cur < p && p[|cur|] in u.children - ks ==> Covered(ngramsQ', p)
      decreases ks
    {
      var idx := Pick(ks);
      var next := cur + [idx];
      QueueChild(root, u, cur, q', ngramsQ', visited, idx);
      ShapeChild(cur, ngramsQ', ks, idx);
      CoverChild(ngramsQ, ngramsQ', cur, u.children.Keys, ks, idx);
      q' := q' + [u.children[idx]];
      ngramsQ' := ngramsQ' + [next];
      ks := ks - {idx};
    }
  }

  /** Queuing a child keeps the queues consistent. */
  lemma QueueChild(root: Node, u: Node, cur: seq<nat>, q: seq<Node>, ngramsQ: seq<seq<nat>>, visited: set<seq<nat>>, idx: nat)
    requires Queued(root, q, ngramsQ, visited) && LastNode(root, cur) == Some(u) && idx in u.children
    requires forall v :: v in visited && cur <= v ==> v == cur
    requires forall i :: 0 <= i < |ngramsQ| ==> Apart(cur, ngramsQ[i]) || (cur < ngramsQ[i] && |ngramsQ[i]| == |cur| + 1)
    requires forall i :: 0 <= i < |ngramsQ| && cur < ngramsQ[i] ==> ngramsQ[i][|cur|] != idx
    ensures Queued(root, q + [u.children[idx]], ngramsQ + [cur + [idx]], visited)
  {
    var next := cur + [idx];
    assert LastNode(root, next) == Some(u.children[idx]) by {
      LastNodeAppend(root, cur, [idx]);
      LastNodeCons(u, idx, []);
      assert [idx] + [] == [idx];
    }
    assert forall v :: v in visited ==> !(next <= v) by {
      forall v | v in visited
        ensures !(next <= v)
      {
        ExtensionPrefix(cur, idx, v);
      }
    }
    assert forall i :: 0 <= i < |ngramsQ| ==> Apart(ngramsQ[i], next) by {
      forall i | 0 <= i < |ngramsQ|
        ensures Apart(ngramsQ[i], next)
      {
        ExtensionPrefix(cur, idx, ngramsQ[i]);
        if !Apart(cur, ngramsQ[i]) {
          ChildForm(cur, ngramsQ[i]);
          Siblings(cur, ngramsQ[i][|cur|], idx);
        }
      }
    }
    var q', ngramsQ' := q + [u.children[idx]], ngramsQ + [next];
    assert forall i :: 0 <= i < |ngramsQ| ==> q'[i] == q[i] && ngramsQ'[i] == ngramsQ[i];
    assert q'[|q|] == u.children[idx] && ngramsQ'[|q|] == next;
  }

  /** Queued children of cur sit one level below it, each under a key already taken from ks. */
  lemma ShapeChild(cur: seq<nat>, ngramsQ: seq<seq<nat>>, ks: set<nat>, idx: nat)
    requires forall i :: 0 <= i < |ngramsQ| ==> Apart(cur, ngramsQ[i]) || (cur < ngramsQ[i] && |ngramsQ[i]| == |cur| + 1)
    requires forall i :: 0 <= i < |ngramsQ| && cur < ngramsQ[i] ==> ngramsQ[i][|cur|] !in ks
    ensures forall i :: 0 <= i < |ngramsQ| + 1 ==> Apart(cur, (ngramsQ + [cur + [idx]])[i]) || (cur < (ngramsQ + [cur + [idx]])[i] && |(ngramsQ + [cur + [idx]])[i]| == |cur| + 1)
    ensures forall i :: 0 <= i < |ngramsQ| + 1 && cur < (ngramsQ + [cur + [idx]])[i] ==> (ngramsQ + [cur + [idx]])[i][|cur|] !in ks - {idx}
  {
    var ngramsQ' := ngramsQ + [cur + [idx]];
    assert forall i :: 0 <= i < |ngramsQ| ==> ngramsQ'[i] == ngramsQ[i];
    assert ngramsQ'[|ngramsQ|] == cur + [idx] && (cur + [idx])[|cur|] == idx;
  }

  /** Queuing cur + [idx] covers every path that ran through that child, and keeps what was covered. */
  lemma CoverChild(ngramsQ0: seq<seq<nat>>, ngramsQ: seq<seq<nat>>, cur: seq<nat>, keys: set<nat>, ks: set<nat>, idx: nat)
    requires forall p :: Covered(ngramsQ0, p) ==> Covered(ngramsQ, p)
    requires forall p :: cur < p && p[|cur|] in keys - ks ==> Covered(ngramsQ, p)
    ensures forall p :: Covered(ngramsQ0, p) ==> Covered(ngramsQ + [cur + [idx]], p)
    ensures forall p :: cur < p && p[|cur|] in keys - (ks - {idx}) ==> Covered(ngramsQ + [cur + [idx]], p)
  {
    var next := cur + [idx];
    forall p | Covered(ngramsQ, p) || (cur < p && p[|cur|] == idx)
      ensures Covered(ngramsQ + [next], p)
    {
      if Covered(ngramsQ, p) {
        var i :| 0 <= i < |ngramsQ| && ngramsQ[i] <= p;
        assert (ngramsQ + [next])[i] == ngramsQ[i];
      } else {
        assert next <= p by {
          assert forall x :: 0 <= x < |next| ==> next[x] == p[x];
        }
        assert (ngramsQ + [next])[|ngramsQ|] == next;
      }
    }
  }

  /** Some element of a non-empty set, as Python's iteration over a dict yields one. */
  method Pick(s: set<nat>) returns (x: nat)
    requires s != {}
    ensures x in s
  {
    x :| x in s;
  }

  /** The empty prefix is shared by every added n-gram. */
  lemma {:induction false} PrefixCountAll(gs: seq<seq<nat>>)
    ensures PrefixCount(gs, []) == |gs|
    decreases |gs|
  {
    if |gs| > 0 {
      PrefixCountAll(gs[..|gs| - 1]);
    }
  }
}
