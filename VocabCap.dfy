/** `limit_max_vocab_size` of the interface/backend dictionary as a function of the
    dictionary state: keep `<unk>` and the max-1 most frequent other ids, renumber them
    0..max-1 by descending frequency, and charge `<unk>` one count per evicted id. */
module VocabCap {
  import opened Common
  import opened Vocabulary
  import opened FreqSort

  /** s without the id u, order kept. */
  function Without(s: seq<nat>, u: nat): (r: seq<nat>)
    ensures |r| <= |s|
    ensures forall x :: x in r <==> x in s && x != u
  {
    if s == [] then []
    else (if s[0] == u then [] else [s[0]]) + Without(s[1..], u)
  }

  /** Appending one element to s appends it to the result unless it is u. */
  lemma {:induction false} WithoutSnoc(s: seq<nat>, x: nat, u: nat)
    ensures Without(s + [x], u) == Without(s, u) + (if x == u then [] else [x])
  {
    var tail: seq<nat> := if x == u then [] else [x];
    if s == [] {
      assert s + [x] == [x];
      assert Without([x], u) == tail + Without([], u);
    } else {
      var t := s + [x];
      assert t[0] == s[0] && t[1..] == s[1..] + [x];
      var head: seq<nat> := if s[0] == u then [] else [s[0]];
      assert Without(t, u) == head + Without(s[1..] + [x], u);
      WithoutSnoc(s[1..], x, u);
      assert Without(s, u) == head + Without(s[1..], u);
    }
  }

  /** Removing an id from a repetition-free sequence keeps it repetition-free and removes
      at most that one element. */
  lemma {:induction false} WithoutDistinct(s: seq<nat>, u: nat)
    requires Distinct(s)
    ensures Distinct(Without(s, u))
    ensures |Without(s, u)| == if u in s then |s| - 1 else |s|
  {
    if s != [] {
      var t := s[1..];
      assert Distinct(t) by {
        forall i, j | 0 <= i < j < |t|
          ensures t[i] != t[j]
        {
          assert t[i] == s[i + 1] && t[j] == s[j + 1];
        }
      }
      WithoutDistinct(t, u);
      forall k | 0 <= k < |t|
        ensures t[k] != s[0]
      {
        assert t[k] == s[k + 1];
      }
      assert u in s <==> u == s[0] || u in t by {
        assert s == [s[0]] + t;
      }
      var r := Without(s, u);
      var rest := Without(t, u);
      if s[0] != u {
        assert r == [s[0]] + rest;
        forall i, j | 0 <= i < j < |r|
          ensures r[i] != r[j]
        {
          assert r[j] == rest[j - 1] && rest[j - 1] in rest;
          if i > 0 {
            assert r[i] == rest[i - 1];
          }
        }
      }
    }
  }

  /** Removing an id keeps an ordering sorted. */
  lemma {:induction false} WithoutSorted(f: seq<nat>, s: seq<nat>, u: nat)
    requires InRange(f, s) && SortedBy(f, s)
    ensures InRange(f, Without(s, u)) && SortedBy(f, Without(s, u))
  {
    if s != [] {
      var t := s[1..];
      assert InRange(f, t) && SortedBy(f, t) by {
        forall a, b | 0 <= a < b < |t|
          ensures Before(f, t[a], t[b])
        {
          assert t[a] == s[a + 1] && t[b] == s[b + 1];
        }
      }
      WithoutSorted(f, t, u);
      var rest := Without(t, u);
      if s[0] != u {
        var r := [s[0]] + rest;
        forall a, b | 0 <= a < b < |r|
          ensures Before(f, r[a], r[b])
        {
          assert r[b] == rest[b - 1] && rest[b - 1] in rest;
          if a == 0 {
            var k :| 0 <= k < |t| && t[k] == rest[b - 1];
            assert s[k + 1] == t[k];
          } else {
            assert r[a] == rest[a - 1];
          }
        }
      }
    }
  }

  /** Where x first sits in s. */
  function Position(s: seq<nat>, x: nat): (p: nat)
    requires x in s
    ensures p < |s| && s[p] == x
    ensures forall q :: 0 <= q < p ==> s[q] != x
  {
    if s[0] == x then 0 else 1 + Position(s[1..], x)
  }

  /** How many sorted ids the loop at lines 75-81 keeps (`i < max_vocab_size - 1`). */
  function CutOff(max: int): nat
  {
    if max <= 1 then 0 else max - 1
  }

  /** The old ids of `new_sorted_wrd_freq`, in its key order: `<unk>` first, then the
      other ids among the first max-1 of the frequency order. */
  function Kept(v: Vocab, max: int): (kept: seq<nat>)
    requires Valid(v) && Unk in v.wrdToIdx && v.idx > max
    ensures |kept| >= 1 && kept[0] == v.wrdToIdx[Unk]
    ensures InRange(v.wrdFreq, kept)
  {
    var order := SortByFreq(v.wrdFreq);
    WithoutInRange(v.wrdFreq, order[..CutOff(max)], v.wrdToIdx[Unk]);
    [v.wrdToIdx[Unk]] + Without(order[..CutOff(max)], v.wrdToIdx[Unk])
  }

  lemma WithoutInRange(f: seq<nat>, s: seq<nat>, u: nat)
    requires InRange(f, s)
    ensures InRange(f, Without(s, u))
  {
    var r := Without(s, u);
    forall j | 0 <= j < |r|
      ensures r[j] < |f|
    {
      assert r[j] in r;
    }
  }

  /** One count for `<unk>` per id at or after the cut-off other than `<unk>` itself. */
  function Bonus(v: Vocab, max: int): nat
    requires Valid(v) && Unk in v.wrdToIdx && v.idx > max
  {
    var order := SortByFreq(v.wrdFreq);
    |Without(order[CutOff(max)..], v.wrdToIdx[Unk])|
  }

  /** `new_wrd_freq`: the kept ids' frequencies in order, `<unk>`'s raised by the bonus. */
  function NewFreq(v: Vocab, max: int): (freq: seq<nat>)
    requires Valid(v) && Unk in v.wrdToIdx && v.idx > max
    ensures |freq| == |Kept(v, max)|
  {
    var kept := Kept(v, max);
    seq(|kept|, j requires 0 <= j < |kept| => NewEntry(v, max, kept, j))
  }

  function NewEntry(v: Vocab, max: int, kept: seq<nat>, j: nat): nat
    requires Valid(v) && Unk in v.wrdToIdx && v.idx > max
    requires j < |kept| && kept[j] < |v.wrdFreq|
  {
    v.wrdFreq[kept[j]] + (if j == 0 then Bonus(v, max) else 0)
  }

  /** `new_wrd_to_idx`: every word whose old id was kept, with its new id. */
  function NewWrdToIdx(v: Vocab, max: int): map<string, nat>
    requires Valid(v) && Unk in v.wrdToIdx && v.idx > max
  {
    var kept := Kept(v, max);
    map w | w in v.wrdToIdx && v.wrdToIdx[w] in kept :: Position(kept, v.wrdToIdx[w])
  }

  /** `new_idx_to_wrd`: the words of the kept ids, under their new ids. */
  function NewIdxToWrd(v: Vocab, max: int): map<nat, string>
    requires Valid(v) && Unk in v.wrdToIdx && v.idx > max
  {
    var kept := Kept(v, max);
    map j | 0 <= j < |kept| && kept[j] in v.idxToWrd :: v.idxToWrd[kept[j]]
  }

  /** `limit_max_vocab_size(max)`: the outcome and the dictionary state afterwards. A failed
      assertion leaves behind the fields already replaced. */
  function Limit(v: Vocab, max: int): (r: (Outcome, Vocab))
    requires Valid(v)
    ensures v.idx <= max ==> r == (Pass, v)
    ensures r.0 == Fail(KeyError) <==> v.idx > max && Unk !in v.wrdToIdx
  {
    if v.idx <= max then (Pass, v)
    else if Unk !in v.wrdToIdx then (Fail(KeyError), v)
    else if |Kept(v, max)| != max then (Fail(AssertionError("")), v)
    else
      var v1 := v.(wrdFreq := NewFreq(v, max));
      var w2i := NewWrdToIdx(v, max);
      if |w2i| != max then (Fail(AssertionError("")), v1)
      else
        var v2 := v1.(wrdToIdx := w2i);
        var i2w := NewIdxToWrd(v, max);
        if |i2w| != max then (Fail(AssertionError("")), v2)
        else
          var v3 := v2.(idxToWrd := i2w, idx := max);
          if max != |v3.wrdFreq| then (Fail(AssertionError("vocab size != max_vocab")), v3)
          else (Pass, v3)
  }

  /** `Limit` past its two early exits, at the assertion of line 83: too few ids kept. */
  lemma LimitKeptFails(v: Vocab, max: int)
    requires Valid(v) && Unk in v.wrdToIdx && v.idx > max && |Kept(v, max)| != max
    ensures Limit(v, max) == (Fail(AssertionError("")), v)
  {
  }

  /** The assertion of line 90 fails after `wrd_freq` was replaced. */
  lemma LimitWordsFail(v: Vocab, max: int, freq: seq<nat>)
    requires Valid(v) && Unk in v.wrdToIdx && v.idx > max && |Kept(v, max)| == max
    requires |NewWrdToIdx(v, max)| != max && freq == NewFreq(v, max)
    ensures Limit(v, max) == (Fail(AssertionError("")), Vocab(v.idx, v.wrdToIdx, v.idxToWrd, freq))
  {
  }

  /** The assertion of line 108 fails after `wrd_to_idx` was replaced too. */
  lemma LimitIdsFail(v: Vocab, max: int, freq: seq<nat>, w2i: map<string, nat>)
    requires Valid(v) && Unk in v.wrdToIdx && v.idx > max && |Kept(v, max)| == max
    requires |NewWrdToIdx(v, max)| == max && |NewIdxToWrd(v, max)| != max
    requires freq == NewFreq(v, max) && w2i == NewWrdToIdx(v, max)
    ensures Limit(v, max) == (Fail(AssertionError("")), Vocab(v.idx, w2i, v.idxToWrd, freq))
  {
  }

  /** All fields replaced; the assertion of line 115 on the size of `wrd_freq` decides. */
  lemma LimitCompletes(v: Vocab, max: int, freq: seq<nat>, w2i: map<string, nat>, i2w: map<nat, string>)
    requires Valid(v) && Unk in v.wrdToIdx && v.idx > max && |Kept(v, max)| == max
    requires |NewWrdToIdx(v, max)| == max && |NewIdxToWrd(v, max)| == max
    requires freq == NewFreq(v, max) && w2i == NewWrdToIdx(v, max) && i2w == NewIdxToWrd(v, max)
    ensures Limit(v, max) == (if max != |freq| then Fail(AssertionError("vocab size != max_vocab")) else Pass,
                              Vocab(max, w2i, i2w, freq))
  {
  }

  /** The frequency order lists every id once. */
  lemma OrderFacts(v: Vocab, max: int)
    requires Valid(v) && Unk in v.wrdToIdx && v.idx > max
    ensures var order := SortByFreq(v.wrdFreq);
      && CutOff(max) < |order|
      && Distinct(order[..CutOff(max)]) && Distinct(order[CutOff(max)..])
      && v.wrdToIdx[Unk] in order
  {
    var order := SortByFreq(v.wrdFreq);
    var m := CutOff(max);
    assert v.wrdToIdx[Unk] < v.idx <= |v.wrdFreq|;
    assert Distinct(order[m..]) by {
      forall i, j | 0 <= i < j < |order[m..]|
        ensures order[m..][i] != order[m..][j]
      {
        assert order[m..][i] == order[m + i] && order[m..][j] == order[m + j];
      }
    }
  }

  /** The number of kept ids reaches max exactly when max >= 1 and `<unk>` is not itself
      among the first max-1 ids of the frequency order. */
  lemma KeptSize(v: Vocab, max: int)
    requires Valid(v) && Unk in v.wrdToIdx && v.idx > max
    ensures |Kept(v, max)| == max <==>
              max >= 1 && v.wrdToIdx[Unk] !in SortByFreq(v.wrdFreq)[..max - 1]
    ensures Distinct(Kept(v, max))
  {
    var order := SortByFreq(v.wrdFreq);
    var m := CutOff(max);
    var u := v.wrdToIdx[Unk];
    OrderFacts(v, max);
    WithoutDistinct(order[..m], u);
    var kept := Kept(v, max);
    var rest := Without(order[..m], u);
    assert kept == [u] + rest;
    forall i, j | 0 <= i < j < |kept|
      ensures kept[i] != kept[j]
    {
      assert kept[j] == rest[j - 1] && rest[j - 1] in rest;
      if i > 0 {
        assert kept[i] == rest[i - 1];
      }
    }
  }

  /** For a dictionary whose frequency entries all belong to words, the new word map has one
      word per kept id. */
  lemma NewWordsSize(v: Vocab, max: int)
    requires Valid(v) && Tight(v) && Unk in v.wrdToIdx && v.idx > max
    ensures |NewWrdToIdx(v, max)| == |Kept(v, max)|
  {
    var kept := Kept(v, max);
    KeptSize(v, max);
    var S := NewWrdToIdx(v, max).Keys;
    var T := set x | x in kept;
    NewWordsOnto(v, max, S, T);
    InjectiveCard(S, T, v.wrdToIdx);
    DistinctCard(kept);
  }

  /** The old id map carries the new map's words onto the kept ids, one to one. */
  lemma NewWordsOnto(v: Vocab, max: int, S: set<string>, T: set<nat>)
    requires Valid(v) && Tight(v) && Unk in v.wrdToIdx && v.idx > max
    requires S == NewWrdToIdx(v, max).Keys && T == set x | x in Kept(v, max)
    ensures S <= v.wrdToIdx.Keys
    ensures forall w :: w in S ==> v.wrdToIdx[w] in T
    ensures forall x :: x in T ==> exists w :: w in S && v.wrdToIdx[w] == x
    ensures forall w, w' :: w in S && w' in S && v.wrdToIdx[w] == v.wrdToIdx[w'] ==> w == w'
  {
    var kept := Kept(v, max);
    forall x | x in T
      ensures exists w :: w in S && v.wrdToIdx[w] == x
    {
      assert InRange(v.wrdFreq, kept);
      var j :| 0 <= j < |kept| && kept[j] == x;
      assert x in v.idxToWrd;
      assert v.idxToWrd[x] in S;
    }
  }

  /** ... and the new id map one id per kept position. */
  lemma NewIdsSize(v: Vocab, max: int)
    requires Valid(v) && Tight(v) && Unk in v.wrdToIdx && v.idx > max
    ensures NewIdxToWrd(v, max).Keys == Range(|Kept(v, max)|)
    ensures |NewIdxToWrd(v, max)| == |Kept(v, max)|
  {
    var kept := Kept(v, max);
    forall j | 0 <= j < |kept|
      ensures kept[j] in v.idxToWrd
    {
    }
    assert NewIdxToWrd(v, max).Keys == Range(|kept|);
  }

  /** Capping fails only as the source says. Without `<unk>` it raises a KeyError. With it,
      capping succeeds exactly when max >= 1 and `<unk>` is not itself among the first max-1
      ids of the frequency order, since otherwise only max-1 distinct ids survive. The failing
      assertion is then the first one, at the count of kept ids, and the dictionary is
      unchanged; the three later assertions never fail. */
  lemma LimitOutcome(v: Vocab, max: int)
    requires Valid(v) && Tight(v) && v.idx > max
    ensures Unk !in v.wrdToIdx ==> Limit(v, max) == (Fail(KeyError), v)
    ensures Unk in v.wrdToIdx ==>
              (Limit(v, max).0 == Pass <==> max >= 1 && v.wrdToIdx[Unk] !in SortByFreq(v.wrdFreq)[..max - 1])
    ensures Unk in v.wrdToIdx && Limit(v, max).0 != Pass ==> Limit(v, max) == (Fail(AssertionError("")), v)
  {
    if Unk in v.wrdToIdx {
      KeptSize(v, max);
      NewWordsSize(v, max);
      NewIdsSize(v, max);
    }
  }

  /** A successful cap installs the new tables. */
  lemma LimitState(v: Vocab, max: int)
    requires Valid(v) && Tight(v) && v.idx > max && Limit(v, max).0 == Pass
    ensures Unk in v.wrdToIdx && max >= 1 && |Kept(v, max)| == max && Distinct(Kept(v, max))
    ensures Limit(v, max).1 == Vocab(max, NewWrdToIdx(v, max), NewIdxToWrd(v, max), NewFreq(v, max))
  {
    KeptSize(v, max);
    NewWordsSize(v, max);
    NewIdsSize(v, max);
  }

  /** The new word map sends each surviving word to the position of its old id. */
  lemma NewWordsInverse(v: Vocab, max: int)
    requires Valid(v) && Unk in v.wrdToIdx && v.idx > max
    ensures var w2i, i2w := NewWrdToIdx(v, max), NewIdxToWrd(v, max);
      forall w :: w in w2i ==> w2i[w] in i2w && i2w[w2i[w]] == w
  {
    var kept := Kept(v, max);
    var w2i, i2w := NewWrdToIdx(v, max), NewIdxToWrd(v, max);
    forall w | w in w2i
      ensures w2i[w] in i2w && i2w[w2i[w]] == w
    {
      var p := Position(kept, v.wrdToIdx[w]);
      assert w2i[w] == p && kept[p] == v.wrdToIdx[w];
      assert v.idxToWrd[kept[p]] == w;
    }
  }

  /** The new id map sends each new id back to the word that was renumbered to it. */
  lemma NewIdsInverse(v: Vocab, max: int)
    requires Valid(v) && Unk in v.wrdToIdx && v.idx > max
    ensures var w2i, i2w := NewWrdToIdx(v, max), NewIdxToWrd(v, max);
      forall j :: j in i2w ==> i2w[j] in w2i && w2i[i2w[j]] == j
  {
    KeptSize(v, max);
    var kept := Kept(v, max);
    var w2i, i2w := NewWrdToIdx(v, max), NewIdxToWrd(v, max);
    forall j | j in i2w
      ensures i2w[j] in w2i && w2i[i2w[j]] == j
    {
      var w := v.idxToWrd[kept[j]];
      assert i2w[j] == w;
      assert v.wrdToIdx[w] == kept[j];
      var p := Position(kept, kept[j]);
      assert p == j;
    }
  }

  /** After a successful cap the dictionary is consistent and has exactly max words in every
      table, with `<unk>` at id 0. */
  lemma LimitShape(v: Vocab, max: int)
    requires Valid(v) && Tight(v) && v.idx > max && Limit(v, max).0 == Pass
    ensures var r := Limit(v, max).1;
      && Valid(r) && Tight(r) && r.idx == max
      && |r.wrdToIdx| == max && |r.idxToWrd| == max && |r.wrdFreq| == max
      && Unk in r.wrdToIdx && r.wrdToIdx[Unk] == 0
  {
    LimitState(v, max);
    NewShape(v, max);
  }

  /** The new tables form a consistent dictionary of |kept| words with `<unk>` at id 0. */
  lemma NewShape(v: Vocab, max: int)
    requires Valid(v) && Tight(v) && Unk in v.wrdToIdx && v.idx > max
    ensures var r := Vocab(|Kept(v, max)|, NewWrdToIdx(v, max), NewIdxToWrd(v, max), NewFreq(v, max));
      && Valid(r) && Tight(r) && |r.wrdToIdx| == r.idx && |r.idxToWrd| == r.idx
      && Unk in r.wrdToIdx && r.wrdToIdx[Unk] == 0
  {
    var r := Vocab(|Kept(v, max)|, NewWrdToIdx(v, max), NewIdxToWrd(v, max), NewFreq(v, max));
    NewValid(v, max);
    ValidCard(r);
    assert Kept(v, max)[0] == v.wrdToIdx[Unk];
  }

  lemma NewValid(v: Vocab, max: int)
    requires Valid(v) && Tight(v) && Unk in v.wrdToIdx && v.idx > max
    ensures Valid(Vocab(|Kept(v, max)|, NewWrdToIdx(v, max), NewIdxToWrd(v, max), NewFreq(v, max)))
  {
    NewIdsSize(v, max);
    NewWordsInverse(v, max);
    NewIdsInverse(v, max);
  }

  /** `<unk>`'s frequency rises by one per evicted id, not by the evicted frequencies. */
  lemma LimitUnkFreq(v: Vocab, max: int)
    requires Valid(v) && Tight(v) && v.idx > max && Limit(v, max).0 == Pass
    ensures Unk in Limit(v, max).1.wrdToIdx
    ensures Count(Limit(v, max).1, Unk) == Count(v, Unk) + (v.idx - max)
  {
    LimitOutcome(v, max);
    LimitState(v, max);
    NewShape(v, max);
    NewUnkFreq(v, max);
  }

  lemma NewUnkFreq(v: Vocab, max: int)
    requires Valid(v) && Tight(v) && Unk in v.wrdToIdx && v.idx > max
    requires max >= 1 && v.wrdToIdx[Unk] !in SortByFreq(v.wrdFreq)[..max - 1]
    ensures NewFreq(v, max)[0] == v.wrdFreq[v.wrdToIdx[Unk]] + (v.idx - max)
  {
    var u := v.wrdToIdx[Unk];
    var order := SortByFreq(v.wrdFreq);
    var m := CutOff(max);
    OrderFacts(v, max);
    assert u in order[m..] by {
      var k :| 0 <= k < |order| && order[k] == u;
      forall q | 0 <= q < m
        ensures order[q] != u
      {
        assert order[..m][q] == order[q];
      }
      assert order[m..][k - m] == u;
    }
    WithoutDistinct(order[m..], u);
    assert NewFreq(v, max)[0] == NewEntry(v, max, Kept(v, max), 0);
  }

  /** The surviving words are `<unk>` and the words whose ids are among the first max-1 of the
      frequency order; each of them other than `<unk>` keeps its frequency. */
  lemma LimitRetained(v: Vocab, max: int)
    requires Valid(v) && Tight(v) && v.idx > max && Limit(v, max).0 == Pass
    ensures forall w :: w in Limit(v, max).1.wrdToIdx <==>
              w in v.wrdToIdx && (w == Unk || v.wrdToIdx[w] in SortByFreq(v.wrdFreq)[..max - 1])
    ensures forall w :: w in Limit(v, max).1.wrdToIdx && w != Unk ==> Count(Limit(v, max).1, w) == Count(v, w)
  {
    LimitState(v, max);
    var kept := Kept(v, max);
    var r := Limit(v, max).1;
    forall w | w in r.wrdToIdx && w != Unk
      ensures Count(r, w) == Count(v, w)
    {
      var p := Position(kept, v.wrdToIdx[w]);
      assert p != 0;
      assert r.wrdFreq[p] == NewEntry(v, max, kept, p);
    }
  }

  /** The survivors are renumbered in descending-frequency order, ties by their old ids, and
      every evicted word was at most as frequent as every surviving word other than `<unk>`. */
  lemma LimitRanks(v: Vocab, max: int)
    requires Valid(v) && Tight(v) && v.idx > max && Limit(v, max).0 == Pass
    ensures var r := Limit(v, max).1;
      forall w, w' :: w in r.wrdToIdx && w' in r.wrdToIdx && w != Unk && w' != Unk ==>
        (r.wrdToIdx[w] < r.wrdToIdx[w'] <==>
           Count(v, w) > Count(v, w') || (Count(v, w) == Count(v, w') && v.wrdToIdx[w] < v.wrdToIdx[w']))
    ensures var r := Limit(v, max).1;
      forall w, w' :: w in v.wrdToIdx && w !in r.wrdToIdx && w' in r.wrdToIdx && w' != Unk ==>
        Count(v, w) <= Count(v, w')
  {
    LimitState(v, max);
    NewRanks(v, max);
    NewEvicted(v, max);
  }

  /** The kept ids other than `<unk>` are in frequency order. */
  lemma KeptSorted(v: Vocab, max: int)
    requires Valid(v) && Unk in v.wrdToIdx && v.idx > max
    ensures var kept := Kept(v, max);
      forall p, p' :: 1 <= p < p' < |kept| ==> Before(v.wrdFreq, kept[p], kept[p'])
  {
    var kept := Kept(v, max);
    var f := v.wrdFreq;
    var order := SortByFreq(f);
    var m := CutOff(max);
    var u := v.wrdToIdx[Unk];
    var rest := Without(order[..m], u);
    assert kept == [u] + rest;
    SortByFreqSorted(f);
    assert InRange(f, order[..m]) && SortedBy(f, order[..m]) by {
      forall a, b | 0 <= a < b < m
        ensures Before(f, order[..m][a], order[..m][b])
      {
        assert order[..m][a] == order[a] && order[..m][b] == order[b];
      }
    }
    WithoutSorted(f, order[..m], u);
    forall p, p' | 1 <= p < p' < |kept|
      ensures Before(f, kept[p], kept[p'])
    {
      assert kept[p] == rest[p - 1] && kept[p'] == rest[p' - 1];
    }
  }

  lemma NewRanks(v: Vocab, max: int)
    requires Valid(v) && Tight(v) && Unk in v.wrdToIdx && v.idx > max
    ensures var w2i := NewWrdToIdx(v, max);
      forall w, w' :: w in w2i && w' in w2i && w != Unk && w' != Unk ==>
        (w2i[w] < w2i[w'] <==>
           Count(v, w) > Count(v, w') || (Count(v, w) == Count(v, w') && v.wrdToIdx[w] < v.wrdToIdx[w']))
  {
    KeptSorted(v, max);
    var kept := Kept(v, max);
    var w2i := NewWrdToIdx(v, max);
    forall w, w' | w in w2i && w' in w2i && w != Unk && w' != Unk
      ensures w2i[w] < w2i[w'] <==>
        Count(v, w) > Count(v, w') || (Count(v, w) == Count(v, w') && v.wrdToIdx[w] < v.wrdToIdx[w'])
    {
      var a, b := v.wrdToIdx[w], v.wrdToIdx[w'];
      assert a != kept[0] && b != kept[0];
      PositionsOrdered(v.wrdFreq, kept, a, b);
      assert Count(v, w) == v.wrdFreq[a] && Count(v, w') == v.wrdFreq[b];
    }
  }

  /** In an ordering sorted by Before after its head, positions past the head compare as
      their ids do. */
  lemma PositionsOrdered(f: seq<nat>, kept: seq<nat>, a: nat, b: nat)
    requires a in kept && b in kept && |kept| >= 1 && a != kept[0] && b != kept[0]
    requires InRange(f, kept)
    requires forall p, p' :: 1 <= p < p' < |kept| ==> Before(f, kept[p], kept[p'])
    ensures Position(kept, a) < Position(kept, b) <==> Before(f, a, b)
  {
    var p, p' := Position(kept, a), Position(kept, b);
    BeforeTotal(f, a, b, a);
    if p < p' {
      assert Before(f, kept[p], kept[p']);
    } else if p' < p {
      assert Before(f, kept[p'], kept[p]);
    }
  }

  lemma NewEvicted(v: Vocab, max: int)
    requires Valid(v) && Tight(v) && Unk in v.wrdToIdx && v.idx > max
    ensures var w2i := NewWrdToIdx(v, max);
      forall w, w' :: w in v.wrdToIdx && w !in w2i && w' in w2i && w' != Unk ==>
        Count(v, w) <= Count(v, w')
  {
    var w2i := NewWrdToIdx(v, max);
    forall w, w' | w in v.wrdToIdx && w !in w2i && w' in w2i && w' != Unk
      ensures Count(v, w) <= Count(v, w')
    {
      EvictedBelow(v, max, v.wrdToIdx[w], v.wrdToIdx[w']);
    }
  }

  /** An id that was not kept is at most as frequent as a kept id other than `<unk>`. */
  lemma EvictedBelow(v: Vocab, max: int, e: nat, k: nat)
    requires Valid(v) && Unk in v.wrdToIdx && v.idx > max
    requires e < |v.wrdFreq| && e !in Kept(v, max) && k in Kept(v, max) && k != v.wrdToIdx[Unk]
    ensures v.wrdFreq[e] <= v.wrdFreq[k]
  {
    var f := v.wrdFreq;
    var order := SortByFreq(f);
    var m := CutOff(max);
    var u := v.wrdToIdx[Unk];
    assert Kept(v, max) == [u] + Without(order[..m], u);
    assert e != u;
    assert e !in order[..m];
    assert k in order[..m];
    var q :| 0 <= q < m && order[..m][q] == k;
    assert e in order;
    var p :| 0 <= p < |order| && order[p] == e;
    forall i | 0 <= i < m
      ensures order[i] != e
    {
      assert order[..m][i] == order[i];
    }
    SortByFreqSorted(f);
    assert Before(f, order[q], order[p]);
  }
}
