/** `NgramLookup` of interface/backend/ngram/ngram_lookup.py: documents are token lists, the
    engine owns its `Dictionary`, windows containing `<unk>` are not indexed, and `lookup`
    reports a case with its match. */
module BackendNgramLookup {
  import opened Common
  import opened Vocabulary
  import opened DocIndex
  import opened TupleIndex
  import NgramDictionary

  /** Lines 118-126 for one document: its ids, then every window without the `<unk>` id is
      added under that window. */
  method AddDocument(ix0: Index, v: Vocab, n: nat, d: nat, words: seq<string>) returns (r: Result<Index>)
    ensures ExcludingKeys(v, n, words).Err? ==> r == Err(ExcludingKeys(v, n, words).error)
    ensures ExcludingKeys(v, n, words).Ok? ==> r == Ok(AddDoc(ix0, d, ExcludingKeys(v, n, words).value))
  {
    var ids := DocIds(v, words);
    if ids.Err? {
      return Err(ids.error);
    }
    var ws := Windows(ids.value, n);
    var ix := ix0;
    for j := 0 to |ws|
      invariant j > 0 ==> Unk in v.wrdToIdx
      invariant Unk in v.wrdToIdx ==> ix == AddDoc(ix0, d, ExcludeUnk(ws[..j], v.wrdToIdx[Unk]))
      invariant Unk !in v.wrdToIdx ==> ix == ix0
    {
      var u := UnkIdx(v);
      if u.Err? {
        return Err(u.error);
      }
      var k := ws[j];
      ghost var kept := ExcludeUnk(ws[..j], u.value);
      assert ix == AddDoc(ix0, d, kept);
      ExcludeUnkSnoc(ws, j, u.value);
      if u.value !in k {
        AddDocSnoc(ix0, d, kept, k);
        ix := ix[k := (if k in ix then ix[k] else {}) + {d}];
        assert ix == AddDoc(ix0, d, kept + [k]);
      } else {
        assert ExcludeUnk(ws[..j + 1], u.value) == kept;
      }
      assert u.value == v.wrdToIdx[Unk];
    }
    assert ws[..|ws|] == ws;
    return Ok(ix);
  }

  class NgramLookup {
    const documents: seq<seq<string>>
    const dictionary: NgramDictionary.Dictionary
    var ngramsRoot: map<nat, Index>

    /** `NgramLookup(documents)`: an empty dictionary of its own and no order built. */
    constructor (documents: seq<seq<string>>)
      ensures this.documents == documents && ngramsRoot == map[]
      ensures fresh(dictionary) && dictionary.State() == Empty
    {
      this.documents := documents;
      dictionary := new NgramDictionary.Dictionary();
      ngramsRoot := map[];
    }

    /** `build_ngrams(n)` */
    method BuildNgrams(n: nat) returns (outcome: Outcome)
      modifies this
      ensures (outcome, ngramsRoot) == BuildOrder(old(ngramsRoot), ExcludeUnkWindows, dictionary.State(), n, documents)
    {
      var v := dictionary.State();
      if v.idx == 1 {
        return Fail(AssertionError("Build dictionary first"));
      }
      if n in ngramsRoot {
        return Pass;
      }
      ghost var f := KeyFn(ExcludeUnkWindows, v, n);
      var ix: Index := map[];
      assert documents[..0] == [];
      for d := 0 to |documents|
        invariant Build(documents[..d], f) == Ok(ix)
        invariant ngramsRoot == old(ngramsRoot)
      {
        var r := AddDocument(ix, v, n, d, documents[d]);
        assert f(documents[d]) == ExcludingKeys(v, n, documents[d]);
        BuildSnoc(documents, f, d);
        if r.Err? {
          BuildErr(documents, f, d + 1, r.error);
          return Fail(r.error);
        }
        ix := r.value;
      }
      assert documents[..|documents|] == documents;
      ngramsRoot := ngramsRoot[n := ix];
      return Pass;
    }

    /** One order of `build_ngram_dictionary`: loaded from `stored` when its file exists,
        built otherwise; no other order changes. */
    method LoadOrBuild(n: nat, stored: map<nat, Index>) returns (outcome: Outcome)
      modifies this
      ensures var loaded := LoadedOrder(old(ngramsRoot), stored, ExcludeUnkWindows, dictionary.State(), n, documents);
        && (outcome == Pass <==> loaded.Ok?)
        && (outcome == Pass ==> n in ngramsRoot && loaded == Ok(ngramsRoot[n]))
        && (outcome.Fail? ==> loaded == Err(outcome.error))
      ensures forall m :: m != n ==>
                (m in ngramsRoot <==> m in old(ngramsRoot)) && (m in ngramsRoot ==> ngramsRoot[m] == old(ngramsRoot)[m])
      ensures n !in stored && n in old(ngramsRoot) ==> n in ngramsRoot && ngramsRoot[n] == old(ngramsRoot)[n]
    {
      if n in stored {
        ngramsRoot := ngramsRoot[n := stored[n]];
        return Pass;
      }
      BuildOrderSpec(ngramsRoot, ExcludeUnkWindows, dictionary.State(), n, documents);
      outcome := BuildNgrams(n);
    }

    /** `build_ngram_dictionary(max_n)`: every order 1..max_n is loaded from `stored` (the
        pickled files that exist) or built, then each must be non-empty. It passes exactly
        when every order loads and is non-empty; otherwise it raises the exception of the
        first order that fails, or the closing AssertionError. */
    method BuildNgramDictionary(maxN: nat, stored: map<nat, Index>) returns (outcome: Outcome)
      modifies this
      ensures outcome == Pass <==> forall m :: 1 <= m <= maxN ==>
                LoadedOrder(old(ngramsRoot), stored, ExcludeUnkWindows, dictionary.State(), m, documents).Ok? &&
                LoadedOrder(old(ngramsRoot), stored, ExcludeUnkWindows, dictionary.State(), m, documents).value != map[]
      ensures outcome == Pass ==> forall m :: 1 <= m <= maxN ==>
                m in ngramsRoot &&
                LoadedOrder(old(ngramsRoot), stored, ExcludeUnkWindows, dictionary.State(), m, documents) == Ok(ngramsRoot[m])
      ensures outcome.Fail? ==>
                (exists m :: 1 <= m <= maxN &&
                   LoadedOrder(old(ngramsRoot), stored, ExcludeUnkWindows, dictionary.State(), m, documents) == Err(outcome.error) &&
                   forall j :: 1 <= j < m ==> LoadedOrder(old(ngramsRoot), stored, ExcludeUnkWindows, dictionary.State(), j, documents).Ok?) ||
                outcome.error == AssertionError("ngram dictionaries were not built")
      ensures forall m :: m !in stored && m in old(ngramsRoot) ==> m in ngramsRoot && ngramsRoot[m] == old(ngramsRoot)[m]
      ensures forall m :: (m < 1 || maxN < m) ==>
                (m in ngramsRoot <==> m in old(ngramsRoot)) && (m in ngramsRoot ==> ngramsRoot[m] == old(ngramsRoot)[m])
    {
      ghost var root0 := ngramsRoot;
      ghost var v := dictionary.State();
      for n := 1 to maxN + 1
        invariant forall m :: 1 <= m < n ==>
                    m in ngramsRoot && LoadedOrder(root0, stored, ExcludeUnkWindows, v, m, documents) == Ok(ngramsRoot[m])
        invariant forall m :: m !in stored && m in root0 ==> m in ngramsRoot && ngramsRoot[m] == root0[m]
        invariant forall m :: (m < 1 || n <= m) ==>
                    (m in ngramsRoot <==> m in root0) && (m in ngramsRoot ==> ngramsRoot[m] == root0[m])
      {
        assert LoadedOrder(ngramsRoot, stored, ExcludeUnkWindows, v, n, documents) ==
               LoadedOrder(root0, stored, ExcludeUnkWindows, v, n, documents);
        outcome := LoadOrBuild(n, stored);
        if outcome.Fail? {
          return;
        }
      }
      var built := AllBuilt(maxN);
      if !built {
        ghost var m :| 1 <= m <= maxN && ngramsRoot[m] == map[];
        assert LoadedOrder(root0, stored, ExcludeUnkWindows, v, m, documents).value == map[];
        assert v == dictionary.State() && root0 == old(ngramsRoot);
        assert !(LoadedOrder(old(ngramsRoot), stored, ExcludeUnkWindows, dictionary.State(), m, documents).Ok? &&
                 LoadedOrder(old(ngramsRoot), stored, ExcludeUnkWindows, dictionary.State(), m, documents).value != map[]);
        return Fail(AssertionError("ngram dictionaries were not built"));
      }
      return Pass;
    }

    /** The closing assertion of `build_ngram_dictionary`: every order 1..max_n is non-empty. */
    method AllBuilt(maxN: nat) returns (built: bool)
      requires forall m :: 1 <= m <= maxN ==> m in ngramsRoot
      ensures built <==> forall m :: 1 <= m <= maxN ==> ngramsRoot[m] != map[]
    {
      for m := 1 to maxN + 1
        invariant forall j :: 1 <= j < m ==> ngramsRoot[j] != map[]
      {
        if ngramsRoot[m] == map[] {
          return false;
        }
      }
      return true;
    }

    /** `lookup(query_wrd)` */
    method Lookup(query: seq<string>) returns (r: Result<Answer>)
      modifies this
      ensures (r, ngramsRoot) == LookupCases(old(ngramsRoot), dictionary.State(), query)
    {
      if |query| == 0 {
        return Ok(Answer(0, {}));
      }
      var v := dictionary.State();
      var ids := IdxOfAll(v, query);
      if ids.Err? {
        return Err(ids.error);
      }
      var u := UnkIdx(v);
      if u.Err? {
        return Err(u.error);
      }
      if u.value in ids.value {
        return Ok(Answer(1, {}));
      }
      var n := |query|;
      if n !in ngramsRoot {
        return Err(KeyError);
      }
      var ix := ngramsRoot[n];
      if ids.value !in ix {
        ngramsRoot := ngramsRoot[n := ix[ids.value := {}]];
        return Ok(Answer(2, {}));
      }
      return Ok(Answer(2, ix[ids.value]));
    }
  }
}
