/** The state of a `Dictionary` as a value, and its operations as functions: the word <-> id
    maps, the id counter and the per-id frequency table, with the `<unk>` fallback. The
    classes of the three dictionary variants keep this state in fields and are specified
    by these functions. */
module Vocabulary {
  import opened Common

  const Unk: string := "<unk>"

  /** `idx`, `wrd_to_idx`, `idx_to_wrd` and `wrd_freq`. The keys of the `wrd_freq`
      defaultdict are always 0..K-1, inserted in ascending order, so it is a sequence; K
      exceeds `idx` only when a loaded vocabulary file repeats a word. */
  datatype Vocab = Vocab(idx: nat, wrdToIdx: map<string, nat>, idxToWrd: map<nat, string>, wrdFreq: seq<nat>)

  /** A freshly constructed dictionary. */
  const Empty: Vocab := Vocab(0, map[], map[], [])

  /** The two maps are inverse and the ids are exactly 0..idx-1, each with a frequency entry. */
  ghost predicate Valid(v: Vocab)
  {
    && (forall w :: w in v.wrdToIdx ==> v.wrdToIdx[w] in v.idxToWrd && v.idxToWrd[v.wrdToIdx[w]] == w)
    && (forall i :: i in v.idxToWrd ==> v.idxToWrd[i] in v.wrdToIdx && v.wrdToIdx[v.idxToWrd[i]] == i)
    && (forall i: nat :: i in v.idxToWrd <==> i < v.idx)
    && v.idx <= |v.wrdFreq|
  }

  /** Every frequency entry belongs to a word: what building from a corpus maintains. */
  predicate Tight(v: Vocab)
  {
    |v.wrdFreq| == v.idx
  }

  /** The counter equals the number of registered words, in both maps. */
  lemma ValidCard(v: Vocab)
    requires Valid(v)
    ensures |v.wrdToIdx| == v.idx && |v.idxToWrd| == v.idx
  {
    assert v.idxToWrd.Keys == Range(v.idx);
    InjectiveCard(v.wrdToIdx.Keys, Range(v.idx), v.wrdToIdx);
  }

  /** `wrd_freq[i]` read without insertion: 0 for an absent id. */
  function FreqOf(v: Vocab, i: nat): nat
  {
    if i < |v.wrdFreq| then v.wrdFreq[i] else 0
  }

  /** The frequency recorded for a word, 0 for an unregistered one. */
  function Count(v: Vocab, w: string): nat
  {
    if w in v.wrdToIdx then FreqOf(v, v.wrdToIdx[w]) else 0
  }

  /** `wrd_freq[i] += 1` on the defaultdict (i is at most one past the last key). */
  function Bump(f: seq<nat>, i: nat): (r: seq<nat>)
    requires i <= |f|
    ensures |r| == if i < |f| then |f| else |f| + 1
    ensures forall j :: 0 <= j < |r| ==> r[j] == (if j < |f| then f[j] else 0) + (if j == i then 1 else 0)
  {
    if i < |f| then f[i := f[i] + 1] else f + [1]
  }

  /** `add_wrd`: an unseen word gets the id `idx` and the counter moves on; a seen word keeps
      its id. The maps stay inverse and dense, and exactly the word's frequency grows by one. */
  function AddWrd(v: Vocab, w: string): (r: Vocab)
    requires Valid(v)
    ensures Valid(r)
    ensures w in v.wrdToIdx ==> r.idx == v.idx && r.wrdToIdx == v.wrdToIdx && r.idxToWrd == v.idxToWrd
    ensures w !in v.wrdToIdx ==> r.idx == v.idx + 1 && r.wrdToIdx == v.wrdToIdx[w := v.idx]
                                 && r.idxToWrd == v.idxToWrd[v.idx := w]
    ensures w in r.wrdToIdx
    ensures forall i :: FreqOf(r, i) == FreqOf(v, i) + (if i == r.wrdToIdx[w] then 1 else 0)
    ensures Tight(v) ==> Tight(r)
    ensures |v.wrdFreq| <= |r.wrdFreq| <= |v.wrdFreq| + 1
  {
    if w in v.wrdToIdx then
      v.(wrdFreq := Bump(v.wrdFreq, v.wrdToIdx[w]))
    else
      Vocab(v.idx + 1, v.wrdToIdx[w := v.idx], v.idxToWrd[v.idx := w], Bump(v.wrdFreq, v.idx))
  }

  /** `get_unk_idx` / `get_unk_id`: a KeyError when `<unk>` was never registered. */
  function UnkIdx(v: Vocab): (r: Result<nat>)
    ensures r.Ok? <==> Unk in v.wrdToIdx
    ensures Valid(v) && r.Ok? ==> r.value in v.idxToWrd && v.idxToWrd[r.value] == Unk
  {
    if Unk in v.wrdToIdx then Ok(v.wrdToIdx[Unk]) else Err(KeyError)
  }

  /** `get_idx_by_wrd`: the word's id, else the `<unk>` id (a KeyError without `<unk>`). */
  function IdxOf(v: Vocab, w: string): (r: Result<nat>)
    ensures r.Err? <==> w !in v.wrdToIdx && Unk !in v.wrdToIdx
    ensures Valid(v) && r.Ok? ==> r.value < v.idx
  {
    if w in v.wrdToIdx then Ok(v.wrdToIdx[w]) else UnkIdx(v)
  }

  /** `get_wrd_by_idx`: the id's word, else `"<unk>"`. */
  function WrdOf(v: Vocab, i: nat): (r: string)
    ensures Valid(v) && r != Unk ==> i < v.idx && r in v.wrdToIdx && v.wrdToIdx[r] == i
  {
    if i in v.idxToWrd then v.idxToWrd[i] else Unk
  }

  /** The lookups in both directions agree with the inverse maps: a word resolves to id i
      exactly when i is its own id, or when it is unregistered and i is the `<unk>` id;
      an id resolves to `"<unk>"` exactly when it is unregistered or is the `<unk>` id. */
  lemma LookupsInverse(v: Vocab, w: string, i: nat)
    requires Valid(v)
    ensures IdxOf(v, w) == Ok(i) <==>
              (i in v.idxToWrd && v.idxToWrd[i] == w) || (w !in v.wrdToIdx && i in v.idxToWrd && v.idxToWrd[i] == Unk)
    ensures WrdOf(v, i) == Unk <==> i !in v.idxToWrd || v.idxToWrd[i] == Unk
    ensures w in v.wrdToIdx ==> WrdOf(v, IdxOf(v, w).value) == w
    ensures i < v.idx ==> IdxOf(v, WrdOf(v, i)) == Ok(i)
  {
  }

  /** `get_idx_by_wrd_multiple`: element-wise, failing if any word fails. */
  function IdxOfAll(v: Vocab, ws: seq<string>): (r: Result<seq<nat>>)
    ensures r.Ok? ==> |r.value| == |ws| && forall k :: 0 <= k < |ws| ==> IdxOf(v, ws[k]) == Ok(r.value[k])
    ensures r.Err? ==> exists k :: 0 <= k < |ws| && IdxOf(v, ws[k]).Err?
  {
    if ws == [] then Ok([])
    else match IdxOfAll(v, ws[..|ws| - 1])
      case Err(e) => Err(e)
      case Ok(init) =>
        match IdxOf(v, ws[|ws| - 1])
        case Err(e) => Err(e)
        case Ok(i) => Ok(init + [i])
  }

  /** `get_wrd_by_idx_multiple` */
  function WrdOfAll(v: Vocab, ids: seq<nat>): (r: seq<string>)
    ensures |r| == |ids| && forall k :: 0 <= k < |ids| ==> r[k] == WrdOf(v, ids[k])
  {
    seq(|ids|, k requires 0 <= k < |ids| => WrdOf(v, ids[k]))
  }

  /** Registered words' ids survive the round trip through their words. */
  lemma IdsWordsRoundTrip(v: Vocab, ws: seq<string>)
    requires Valid(v) && forall k :: 0 <= k < |ws| ==> ws[k] in v.wrdToIdx
    ensures IdxOfAll(v, ws).Ok? && WrdOfAll(v, IdxOfAll(v, ws).value) == ws
  {
    assert forall k :: 0 <= k < |ws| ==> IdxOf(v, ws[k]).Ok?;
  }

  /** `add_wrd` over a sequence of words, in order. */
  function AddAll(v: Vocab, ws: seq<string>): (r: Vocab)
    requires Valid(v)
    ensures Valid(r)
  {
    if ws == [] then v else AddWrd(AddAll(v, ws[..|ws| - 1]), ws[|ws| - 1])
  }

  /** Adding one more word is one more `add_wrd`. */
  lemma AddAllSnoc(v: Vocab, ws: seq<string>, w: string)
    requires Valid(v)
    ensures AddAll(v, ws + [w]) == AddWrd(AddAll(v, ws), w)
  {
    assert (ws + [w])[..|ws|] == ws;
  }

  lemma {:induction false} AddAllAppend(v: Vocab, a: seq<string>, b: seq<string>)
    requires Valid(v)
    ensures AddAll(v, a + b) == AddAll(AddAll(v, a), b)
  {
    if b != [] {
      assert (a + b)[..|a + b| - 1] == a + b[..|b| - 1];
      AddAllAppend(v, a, b[..|b| - 1]);
    } else {
      assert a + b == a;
    }
  }

  /** Adding words registers exactly them: old ids are kept and new ids come after the
      old counter. */
  lemma {:induction false} AddAllKeys(v: Vocab, ws: seq<string>)
    requires Valid(v)
    ensures forall w :: w in AddAll(v, ws).wrdToIdx <==> w in v.wrdToIdx || w in ws
    ensures forall w :: w in v.wrdToIdx ==> AddAll(v, ws).wrdToIdx[w] == v.wrdToIdx[w]
    ensures AddAll(v, ws).idx >= v.idx
    ensures forall w :: w in AddAll(v, ws).wrdToIdx && w !in v.wrdToIdx ==> AddAll(v, ws).wrdToIdx[w] >= v.idx
  {
    AddAllMembers(v, ws);
    AddAllIds(v, ws);
  }

  lemma {:induction false} AddAllMembers(v: Vocab, ws: seq<string>)
    requires Valid(v)
    ensures forall w :: w in AddAll(v, ws).wrdToIdx <==> w in v.wrdToIdx || w in ws
  {
    if ws != [] {
      var init, w := ws[..|ws| - 1], ws[|ws| - 1];
      AddAllMembers(v, init);
      assert ws == init + [w];
      assert forall x :: x in ws <==> x in init || x == w;
    }
  }

  lemma {:induction false} AddAllIds(v: Vocab, ws: seq<string>)
    requires Valid(v)
    ensures forall w :: w in v.wrdToIdx ==> w in AddAll(v, ws).wrdToIdx && AddAll(v, ws).wrdToIdx[w] == v.wrdToIdx[w]
    ensures AddAll(v, ws).idx >= v.idx
    ensures forall w :: w in AddAll(v, ws).wrdToIdx && w !in v.wrdToIdx ==> AddAll(v, ws).wrdToIdx[w] >= v.idx
  {
    if ws != [] {
      AddAllIds(v, ws[..|ws| - 1]);
    }
  }

  /** Adding words to a dictionary whose frequency entries all belong to words raises each
      word's frequency by its number of occurrences, and keeps that shape. */
  lemma {:induction false} AddAllCounts(v: Vocab, ws: seq<string>)
    requires Valid(v) && Tight(v)
    ensures Tight(AddAll(v, ws))
    ensures forall w :: Count(AddAll(v, ws), w) == Count(v, w) + multiset(ws)[w]
  {
    if ws != [] {
      var init, w := ws[..|ws| - 1], ws[|ws| - 1];
      AddAllCounts(v, init);
      var u := AddAll(v, init);
      var r := AddWrd(u, w);
      assert ws == init + [w];
      assert multiset(ws) == multiset(init) + multiset{w};
      forall x
        ensures Count(r, x) == Count(u, x) + (if x == w then 1 else 0)
      {
        if x in u.wrdToIdx && x != w {
          assert r.wrdToIdx[x] == u.wrdToIdx[x] != r.wrdToIdx[w];
        }
      }
    }
  }

  /** The tokens of a corpus in reading order: `doc.split()` for every document. */
  function CorpusWords(corpus: seq<string>, split: string -> seq<string>): seq<string>
  {
    if corpus == [] then []
    else CorpusWords(corpus[..|corpus| - 1], split) + split(corpus[|corpus| - 1])
  }

  /** `build_from_corpus`: register `<unk>`, then every token of every document. */
  function BuildFromCorpus(v: Vocab, corpus: seq<string>, split: string -> seq<string>): (r: Vocab)
    requires Valid(v)
    ensures Valid(r)
  {
    AddAll(AddWrd(v, Unk), CorpusWords(corpus, split))
  }

  /** On a fresh dictionary, building from a corpus gives `<unk>` the id 0, registers
      exactly `<unk>` and the corpus tokens, keeps every id's frequency entry and counts
      each token's occurrences (plus the one registration of `<unk>`). */
  lemma BuildFromCorpusFresh(corpus: seq<string>, split: string -> seq<string>)
    ensures var r := BuildFromCorpus(Empty, corpus, split);
      && Unk in r.wrdToIdx && r.wrdToIdx[Unk] == 0
      && Tight(r)
      && (forall w :: w in r.wrdToIdx <==> w == Unk || w in CorpusWords(corpus, split))
      && (forall w :: Count(r, w) == multiset(CorpusWords(corpus, split))[w] + (if w == Unk then 1 else 0))
  {
    var s := AddWrd(Empty, Unk);
    assert s == Vocab(1, map[Unk := 0], map[0 := Unk], [1]);
    AddAllKeys(s, CorpusWords(corpus, split));
    AddAllCounts(s, CorpusWords(corpus, split));
  }

  /** The dictionary of the root `Dictionary()` constructor: only `<unk>`, with id 0,
      counter 1 and frequency 1. */
  function Seeded(): (r: Vocab)
    ensures Valid(r) && Tight(r)
    ensures r.idx == 1 && r.wrdToIdx == map[Unk := 0] && r.idxToWrd == map[0 := Unk]
    ensures Count(r, Unk) == 1
  {
    AddWrd(Empty, Unk)
  }
}
