/** The `Dictionary` class of the three n-gram packages (interface/backend/ngram, ngram and
    the repository root): the counter and the three tables are fields that the methods
    update in place. Each method is specified by the function on `Vocab` values that
    describes the same step, so the lemmas proved about those functions hold of the
    objects too. */
module NgramDictionary {
  import opened Common
  import opened Vocabulary
  import opened FreqSort
  import VocabCap
  import VocabFile
  import Text

  class Dictionary {
    var idx: nat
    var wrdToIdx: map<string, nat>
    var idxToWrd: map<nat, string>
    var wrdFreq: seq<nat>

    /** The fields as a value. */
    function State(): Vocab
      reads this
    {
      Vocab(idx, wrdToIdx, idxToWrd, wrdFreq)
    }

    ghost predicate Valid()
      reads this
    {
      Vocabulary.Valid(State())
    }

    /** `Dictionary()` of interface/backend/ngram and ngram: nothing registered. */
    constructor ()
      ensures Valid() && State() == Empty
    {
      idx := 0;
      wrdToIdx := map[];
      idxToWrd := map[];
      wrdFreq := [];
    }

    /** `Dictionary(vocabs_file)` of the root package: without a file only `<unk>` is
        registered; with one, every line is stripped and added in file order. */
    constructor Root(vocabsFile: Option<seq<string>>)
      ensures vocabsFile.None? ==> State() == Seeded()
      ensures vocabsFile.Some? ==> State() == AddAll(Empty, MapSeq(Text.Strip, vocabsFile.value))
      ensures Valid()
    {
      idx := 0;
      wrdToIdx := map[];
      idxToWrd := map[];
      wrdFreq := [];
      new;
      if vocabsFile.Some? {
        AddLines(vocabsFile.value);
      } else {
        AddWrd(Unk);
      }
    }

    /** The loop of the root constructor: `add_wrd(wrd.strip())` for every line, in order. */
    method AddLines(lines: seq<string>)
      requires Valid()
      modifies this
      ensures State() == AddAll(old(State()), MapSeq(Text.Strip, lines))
      ensures Valid()
    {
      ghost var start := State();
      ghost var words := MapSeq(Text.Strip, lines);
      for k := 0 to |lines|
        invariant Vocabulary.Valid(start) && State() == AddAll(start, words[..k])
      {
        var w := Text.Strip(lines[k]);
        AddWrd(w);
        AddAllSnoc(start, words[..k], w);
        TakeSnoc(words, k);
      }
      assert words[..|lines|] == words;
    }

    /** `add_wrd` */
    method AddWrd(w: string)
      requires Valid()
      modifies this
      ensures State() == Vocabulary.AddWrd(old(State()), w)
      ensures Valid()
    {
      if w !in wrdToIdx {
        wrdToIdx := wrdToIdx[w := idx];
        idxToWrd := idxToWrd[idx := w];
        idx := idx + 1;
      }
      var i := wrdToIdx[w];
      if i < |wrdFreq| {
        wrdFreq := wrdFreq[i := wrdFreq[i] + 1];
      } else {
        wrdFreq := wrdFreq + [1];
      }
    }

    /** The inner loop of `build_from_corpus`: `add_wrd` on every token of one document. */
    method AddWords(words: seq<string>)
      requires Valid()
      modifies this
      ensures State() == AddAll(old(State()), words)
      ensures Valid()
    {
      ghost var start := State();
      for k := 0 to |words|
        invariant Vocabulary.Valid(start) && State() == AddAll(start, words[..k])
      {
        AddWrd(words[k]);
        AddAllSnoc(start, words[..k], words[k]);
        TakeSnoc(words, k);
      }
      assert words[..|words|] == words;
    }

    /** `build_from_corpus`: `<unk>` first, then every token of every document. The
        tokenizer is `doc.split()` in interface/backend/ngram and `doc.strip().split()` in
        ngram. */
    method BuildFromCorpus(corpus: seq<string>, split: string -> seq<string>)
      requires Valid()
      modifies this
      ensures State() == Vocabulary.BuildFromCorpus(old(State()), corpus, split)
      ensures Valid()
    {
      AddWrd(Unk);
      ghost var start := State();
      for d := 0 to |corpus|
        invariant Vocabulary.Valid(start) && State() == AddAll(start, CorpusWords(corpus[..d], split))
      {
        AddWords(split(corpus[d]));
        AddAllAppend(start, CorpusWords(corpus[..d], split), split(corpus[d]));
        assert corpus[..d + 1][..d] == corpus[..d];
      }
      assert corpus[..|corpus|] == corpus;
    }

    /** `build_from_file` of interface/backend/ngram and ngram: line i adds its word and sets
        frequency entry i; the counter is then set to the number of words, which it already
        equals. On a fresh dictionary this is `VocabFile.BuildFromFile`. */
    method BuildFromFile(lines: seq<VocabFile.Line>)
      requires Valid()
      modifies this
      ensures State() == VocabFile.LoadFrom(old(State()), lines)
      ensures old(State()) == Empty ==> State() == VocabFile.BuildFromFile(lines)
      ensures Valid()
    {
      ghost var start := State();
      for i := 0 to |lines|
        invariant State() == VocabFile.LoadFrom(start, lines[..i])
      {
        AddWrd(lines[i].wrd);
        VocabFile.LoadFromSnoc(start, lines, i);
        if i < |wrdFreq| {
          wrdFreq := wrdFreq[i := lines[i].freq];
        } else {
          wrdFreq := wrdFreq + [lines[i].freq];
        }
      }
      assert lines[..|lines|] == lines;
      ValidCard(State());
      idx := |wrdToIdx|;
      if start == Empty {
        VocabFile.LoadFromEmpty(lines);
        VocabFile.BuildFromFileIsLoad(lines);
      }
    }

    /** `save_as_file` of interface/backend/ngram: one line per frequency entry, in id order. */
    method SaveAsFile() returns (lines: seq<VocabFile.Line>)
      ensures lines == VocabFile.SaveById(State())
    {
      lines := [];
      for i := 0 to |wrdFreq|
        invariant lines == VocabFile.SaveById(State())[..i]
      {
        lines := lines + [VocabFile.Line(WrdOf(State(), i), wrdFreq[i])];
      }
    }

    /** `save_as_file` of ngram with the frequency sort it means to call: one line per
        frequency entry, most frequent first. */
    method SaveSortedAsFile() returns (lines: seq<VocabFile.Line>)
      ensures lines == VocabFile.SaveByFreq(State())
    {
      var order := SortByFreq(wrdFreq);
      lines := [];
      for k := 0 to |order|
        invariant lines == VocabFile.SaveByFreq(State())[..k]
      {
        lines := lines + [VocabFile.Line(WrdOf(State(), order[k]), wrdFreq[order[k]])];
      }
    }

    /** `limit_max_vocab_size`: the outcome and the fields afterwards are those of
        `VocabCap.Limit`, including the fields already replaced when an assertion fails.
        The three new tables are computed first and each exit replaces the fields that the
        source has replaced by the time it gets there: none of the tables reads a field
        that an earlier step replaces, so the outcome and the fields are the source's. */
    method LimitMaxVocabSize(max: int) returns (outcome: Outcome)
      requires Valid()
      modifies this
      ensures (outcome, State()) == VocabCap.Limit(old(State()), max)
    {
      var v := Vocab(idx, wrdToIdx, idxToWrd, wrdFreq);
      assert v == State();
      if idx <= max {
        return Pass;
      }
      if Unk !in wrdToIdx {
        return Fail(KeyError);
      }
      var keys, vals, newWrdToIdx, newIdxToWrd := NewTables(v, max);
      if |keys| != max {
        VocabCap.LimitKeptFails(v, max);
        return Fail(AssertionError(""));
      }
      if |newWrdToIdx| != max {
        Store(Vocab(v.idx, v.wrdToIdx, v.idxToWrd, vals));
        VocabCap.LimitWordsFail(v, max, vals);
        return Fail(AssertionError(""));
      }
      if |newIdxToWrd| != max {
        Store(Vocab(v.idx, newWrdToIdx, v.idxToWrd, vals));
        VocabCap.LimitIdsFail(v, max, vals, newWrdToIdx);
        return Fail(AssertionError(""));
      }
      Store(Vocab(max, newWrdToIdx, newIdxToWrd, vals));
      VocabCap.LimitCompletes(v, max, vals, newWrdToIdx, newIdxToWrd);
      if max != |wrdFreq| {
        return Fail(AssertionError("vocab size != max_vocab"));
      }
      return Pass;
    }

    /** Sets the fields to the given state; a field given its current value is left as
        it is. */
    method Store(s: Vocab)
      modifies this
      ensures State() == s
    {
      idx, wrdToIdx, idxToWrd, wrdFreq := s.idx, s.wrdToIdx, s.idxToWrd, s.wrdFreq;
    }
  }

  /** The three tables that replace the fields: `new_wrd_freq` (with the keys of
      `new_sorted_wrd_freq`), `new_wrd_to_idx` and `new_idx_to_wrd`. */
  method NewTables(v: Vocab, max: int) returns (keys: seq<nat>, vals: seq<nat>, w2i: map<string, nat>, i2w: map<nat, string>)
    requires Vocabulary.Valid(v) && Unk in v.wrdToIdx && v.idx > max
    ensures keys == VocabCap.Kept(v, max) && vals == VocabCap.NewFreq(v, max)
    ensures w2i == VocabCap.NewWrdToIdx(v, max) && i2w == VocabCap.NewIdxToWrd(v, max)
  {
    keys, vals := NewFrequencies(v, max);
    w2i := RenumberWords(v, max, keys);
    i2w := InvertNewWordIds(v, max, w2i);
  }

  /** Lines 72-81: sort the ids by frequency and build `new_sorted_wrd_freq`; its keys are
      the kept ids and its values their new frequencies. */
  method NewFrequencies(v: Vocab, max: int) returns (keys: seq<nat>, vals: seq<nat>)
    requires Vocabulary.Valid(v) && Unk in v.wrdToIdx && v.idx > max
    ensures keys == VocabCap.Kept(v, max) && vals == VocabCap.NewFreq(v, max)
  {
    var u := v.wrdToIdx[Unk];
    var order := SortByFreq(v.wrdFreq);
    VocabCap.OrderFacts(v, max);
    keys, vals := NewSortedWrdFreq(v.wrdFreq, order, u, max);
  }

  /** Lines 84-88: `old_idx_to_new_idx` and `new_wrd_to_idx`. */
  method RenumberWords(v: Vocab, max: int, keys: seq<nat>) returns (w2i: map<string, nat>)
    requires Vocabulary.Valid(v) && Unk in v.wrdToIdx && v.idx > max
    requires keys == VocabCap.Kept(v, max)
    ensures w2i == VocabCap.NewWrdToIdx(v, max)
  {
    var oldToNew := map k | k in keys :: VocabCap.Position(keys, k);
    w2i := NewWordIds(v.wrdToIdx, oldToNew);
  }

  /** `new_idx_to_wrd`, the inverse of the renumbered word table. */
  method InvertNewWordIds(ghost v: Vocab, max: int, w2i: map<string, nat>) returns (i2w: map<nat, string>)
    requires Vocabulary.Valid(v) && Unk in v.wrdToIdx && v.idx > max
    requires w2i == VocabCap.NewWrdToIdx(v, max)
    ensures i2w == VocabCap.NewIdxToWrd(v, max)
  {
    NewWordsInjective(v, max);
    LimitInverted(v, max);
    i2w := Invert(w2i);
  }

  /** The loop at lines 75-81, building `new_sorted_wrd_freq` (an insertion-ordered dict,
      returned as its keys and its values): `<unk>` first, then the ids among the first
      max-1 of the frequency order, each with its frequency; every later id other than
      `<unk>` adds one to `<unk>`'s value. */
  method NewSortedWrdFreq(f: seq<nat>, order: seq<nat>, u: nat, max: int) returns (keys: seq<nat>, vals: seq<nat>)
    requires InRange(f, order) && Distinct(order) && u < |f| && VocabCap.CutOff(max) <= |order|
    ensures keys == [u] + VocabCap.Without(order[..VocabCap.CutOff(max)], u)
    ensures InRange(f, keys) && |vals| == |keys|
    ensures vals[0] == f[u] + |VocabCap.Without(order[VocabCap.CutOff(max)..], u)|
    ensures forall j :: 1 <= j < |vals| ==> vals[j] == f[keys[j]]
  {
    ghost var m := VocabCap.CutOff(max);
    keys, vals := [u], [f[u]];
    ghost var bonus := 0;
    assert order[..0] == [];
    for i := 0 to |order|
      invariant Progress(f, order, u, m, i, keys, vals, bonus)
    {
      var id := order[i];
      if i < max - 1 {
        KeptStep(f, order, u, m, i, keys, vals, bonus);
        if id in keys {
          vals := vals[0 := f[id]];
        } else {
          keys := keys + [id];
          vals := vals + [f[id]];
        }
      } else if id != u {
        EvictedStep(f, order, u, m, i, keys, vals, bonus);
        vals := vals[0 := vals[0] + 1];
        bonus := bonus + 1;
      } else {
        EvictedStep(f, order, u, m, i, keys, vals, bonus);
      }
    }
    assert order[m..|order|] == order[m..];
    if m == |order| {
      assert VocabCap.Without(order[m..], u) == [];
    }
  }

  /** The state of the loop at lines 75-81 after i sorted ids: the keys are `<unk>` and the
      other ids seen before the cut-off m, `<unk>`'s value carries one count per other id
      seen from m on, and every other value is its id's frequency. */
  ghost predicate Progress(f: seq<nat>, order: seq<nat>, u: nat, m: nat, i: nat, keys: seq<nat>, vals: seq<nat>, bonus: nat)
  {
    && i <= |order|
    && (i <= m ==> keys == [u] + VocabCap.Without(order[..i], u) && bonus == 0)
    && (i >= m ==> m <= |order| && keys == [u] + VocabCap.Without(order[..m], u)
                   && bonus == |VocabCap.Without(order[m..i], u)|)
    && |keys| >= 1 && InRange(f, keys) && |vals| == |keys| && u < |f|
    && vals[0] == f[u] + bonus
    && (forall j :: 1 <= j < |vals| ==> vals[j] == f[keys[j]])
  }

  /** A step before the cut-off: the id is already a key only if it is `<unk>`; otherwise it
      is appended with its frequency. */
  lemma KeptStep(f: seq<nat>, order: seq<nat>, u: nat, m: nat, i: nat, keys: seq<nat>, vals: seq<nat>, bonus: nat)
    requires Progress(f, order, u, m, i, keys, vals, bonus)
    requires InRange(f, order) && Distinct(order) && i < m && i < |order|
    ensures order[i] in keys <==> order[i] == u
    ensures order[i] in keys ==> Progress(f, order, u, m, i + 1, keys, vals[0 := f[order[i]]], bonus)
    ensures order[i] !in keys ==> Progress(f, order, u, m, i + 1, keys + [order[i]], vals + [f[order[i]]], bonus)
  {
    LimitStepKept(order, u, i);
    if order[i] !in keys {
      var k2 := keys + [order[i]];
      assert InRange(f, k2) by {
        forall j | 0 <= j < |k2|
          ensures k2[j] < |f|
        {
          if j == |keys| {
            assert k2[j] == order[i];
          } else {
            assert k2[j] == keys[j];
          }
        }
      }
    }
  }

  /** A step at or after the cut-off: an id other than `<unk>` adds one to `<unk>`'s value. */
  lemma EvictedStep(f: seq<nat>, order: seq<nat>, u: nat, m: nat, i: nat, keys: seq<nat>, vals: seq<nat>, bonus: nat)
    requires Progress(f, order, u, m, i, keys, vals, bonus)
    requires m <= i < |order|
    ensures order[i] != u ==> Progress(f, order, u, m, i + 1, keys, vals[0 := vals[0] + 1], bonus + 1)
    ensures order[i] == u ==> Progress(f, order, u, m, i + 1, keys, vals, bonus)
  {
    LimitStepEvicted(order, u, m, i);
    if i == m {
      assert order[m..m] == [];
      assert VocabCap.Without(order[m..m], u) == [];
    }
  }

  /** The loop at lines 97-100: every word whose old id has a new id, under the new id. */
  method NewWordIds(wrdToIdx: map<string, nat>, oldToNew: map<nat, nat>) returns (r: map<string, nat>)
    ensures r == map w | w in wrdToIdx && wrdToIdx[w] in oldToNew :: oldToNew[wrdToIdx[w]]
  {
    r := map[];
    var todo := wrdToIdx.Keys;
    while todo != {}
      invariant todo <= wrdToIdx.Keys
      invariant r == map w | w in wrdToIdx.Keys - todo && wrdToIdx[w] in oldToNew :: oldToNew[wrdToIdx[w]]
      decreases todo
    {
      var w :| w in todo;
      if wrdToIdx[w] in oldToNew {
        r := r[w := oldToNew[wrdToIdx[w]]];
      }
      todo := todo - {w};
    }
  }

  /** A step of the loop at lines 75-81 before the cut-off: the sorted id joins the kept
      prefix, and it is already a key only if it is `<unk>`. */
  lemma LimitStepKept(order: seq<nat>, u: nat, i: nat)
    requires Distinct(order) && i < |order|
    ensures VocabCap.Without(order[..i + 1], u) == VocabCap.Without(order[..i], u) + (if order[i] == u then [] else [order[i]])
    ensures order[i] in [u] + VocabCap.Without(order[..i], u) <==> order[i] == u
  {
    assert order[..i + 1] == order[..i] + [order[i]];
    VocabCap.WithoutSnoc(order[..i], order[i], u);
    forall k | 0 <= k < i
      ensures order[..i][k] != order[i]
    {
    }
  }

  /** A step of the same loop at or after the cut-off: the sorted id joins the evicted part. */
  lemma LimitStepEvicted(order: seq<nat>, u: nat, m: nat, i: nat)
    requires m <= i < |order|
    ensures VocabCap.Without(order[m..i + 1], u) == VocabCap.Without(order[m..i], u) + (if order[i] == u then [] else [order[i]])
  {
    assert order[m..i + 1] == order[m..i] + [order[i]];
    VocabCap.WithoutSnoc(order[m..i], order[i], u);
  }

  /** Distinct surviving words get distinct new ids. */
  lemma NewWordsInjective(v: Vocab, max: int)
    requires Vocabulary.Valid(v) && Unk in v.wrdToIdx && v.idx > max
    ensures var n := VocabCap.NewWrdToIdx(v, max);
      forall w, w' :: w in n && w' in n && n[w] == n[w'] ==> w == w'
  {
    var kept := VocabCap.Kept(v, max);
    var n := VocabCap.NewWrdToIdx(v, max);
    forall w, w' | w in n && w' in n && n[w] == n[w']
      ensures w == w'
    {
      var p, p' := VocabCap.Position(kept, v.wrdToIdx[w]), VocabCap.Position(kept, v.wrdToIdx[w']);
      assert kept[p] == v.wrdToIdx[w] && kept[p'] == v.wrdToIdx[w'];
    }
  }

  /** `{idx: wrd for wrd, idx in m.items()}` for a map without repeated values. */
  function Invert(m: map<string, nat>): (r: map<nat, string>)
    requires forall w, w' :: w in m && w' in m && m[w] == m[w'] ==> w == w'
    ensures forall w :: w in m ==> m[w] in r && r[m[w]] == w
    ensures forall i :: i in r ==> r[i] in m && m[r[i]] == i
  {
    map w | w in m :: m[w] := w
  }

  /** Inverting the new word map (line 106) gives `VocabCap.NewIdxToWrd`. */
  lemma LimitInverted(v: Vocab, max: int)
    requires Vocabulary.Valid(v) && Unk in v.wrdToIdx && v.idx > max
    requires var n := VocabCap.NewWrdToIdx(v, max);
      forall w, w' :: w in n && w' in n && n[w] == n[w'] ==> w == w'
    ensures var n := VocabCap.NewWrdToIdx(v, max);
      Invert(n) == VocabCap.NewIdxToWrd(v, max)
  {
    InvertedWithin(v, max);
    InvertedCovers(v, max);
  }

  lemma InvertedWithin(v: Vocab, max: int)
    requires Vocabulary.Valid(v) && Unk in v.wrdToIdx && v.idx > max
    requires var n := VocabCap.NewWrdToIdx(v, max);
      forall w, w' :: w in n && w' in n && n[w] == n[w'] ==> w == w'
    ensures var n, i2w := VocabCap.NewWrdToIdx(v, max), VocabCap.NewIdxToWrd(v, max);
      var inv := Invert(n);
      forall j :: j in inv ==> j in i2w && i2w[j] == inv[j]
  {
    var n := VocabCap.NewWrdToIdx(v, max);
    var i2w := VocabCap.NewIdxToWrd(v, max);
    VocabCap.NewWordsInverse(v, max);
    var inv := Invert(n);
    forall j | j in inv
      ensures j in i2w && i2w[j] == inv[j]
    {
      var w :| w in n && n[w] == j;
    }
  }

  lemma InvertedCovers(v: Vocab, max: int)
    requires Vocabulary.Valid(v) && Unk in v.wrdToIdx && v.idx > max
    requires var n := VocabCap.NewWrdToIdx(v, max);
      forall w, w' :: w in n && w' in n && n[w] == n[w'] ==> w == w'
    ensures var n, i2w := VocabCap.NewWrdToIdx(v, max), VocabCap.NewIdxToWrd(v, max);
      forall j :: j in i2w ==> j in Invert(n)
  {
    var n := VocabCap.NewWrdToIdx(v, max);
    var i2w := VocabCap.NewIdxToWrd(v, max);
    VocabCap.NewIdsInverse(v, max);
    forall j | j in i2w
      ensures j in Invert(n)
    {
      assert i2w[j] in n && n[i2w[j]] == j;
    }
  }
}
