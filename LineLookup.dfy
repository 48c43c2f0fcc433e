/** `NgramLookup` of ngram/ngram_lookup.py: documents are preprocessed strings split by
    `strip().split()`, the dictionary is shared with the caller, every window is indexed
    (`<unk>` included), and `lookup` returns the stored set. */
module LineNgramLookup {
  import opened Common
  import opened Vocabulary
  import opened DocIndex
  import opened TupleIndex
  import NgramDictionary
  import Text

  /** Lines 66-71 for one document: its ids, then every window is added under itself. */
  method AddDocument(ix0: Index, v: Vocab, n: nat, d: nat, words: seq<string>) returns (r: Result<Index>)
    ensures AllKeys(v, n, words).Err? ==> r == Err(AllKeys(v, n, words).error)
    ensures AllKeys(v, n, words).Ok? ==> r == Ok(AddDoc(ix0, d, AllKeys(v, n, words).value))
  {
    var ids := DocIds(v, words);
    if ids.Err? {
      return Err(ids.error);
    }
    var ws := Windows(ids.value, n);
    var ix := ix0;
    for j := 0 to |ws|
      invariant ix == AddDoc(ix0, d, ws[..j])
    {
      var k := ws[j];
      AddDocSnoc(ix0, d, ws[..j], k);
      assert ws[..j + 1] == ws[..j] + [k];
      ix := ix[k := (if k in ix then ix[k] else {}) + {d}];
    }
    assert ws[..|ws|] == ws;
    return Ok(ix);
  }

  class NgramLookup {
    const documents: seq<string>
    const ids: seq<string>
    const dictionary: NgramDictionary.Dictionary
    var ngramsRoot: map<nat, Index>

    /** `NgramLookup(documents, ids, dictionary)`: no order built. */
    constructor (documents: seq<string>, ids: seq<string>, dictionary: NgramDictionary.Dictionary)
      ensures this.documents == documents && this.ids == ids && this.dictionary == dictionary
      ensures ngramsRoot == map[]
    {
      this.documents := documents;
      this.ids := ids;
      this.dictionary := dictionary;
      ngramsRoot := map[];
    }

    /** `build_ngrams(n)` */
    method BuildNgrams(n: nat) returns (outcome: Outcome)
      modifies this
      ensures (outcome, ngramsRoot) ==
        BuildOrder(old(ngramsRoot), AllWindows, dictionary.State(), n, MapSeq(Text.Words, documents))
    {
      var v := dictionary.State();
      if v.idx == 1 {
        return Fail(AssertionError("Build dictionary first"));
      }
      if n in ngramsRoot {
        return Pass;
      }
      ghost var docs := MapSeq(Text.Words, documents);
      ghost var f := KeyFn(AllWindows, v, n);
      var ix: Index := map[];
      assert docs[..0] == [];
      for d := 0 to |documents|
        invariant Build(docs[..d], f) == Ok(ix)
        invariant ngramsRoot == old(ngramsRoot)
      {
        var words := Text.Words(documents[d]);
        var r := AddDocument(ix, v, n, d, words);
        assert f(docs[d]) == AllKeys(v, n, words);
        BuildSnoc(docs, f, d);
        if r.Err? {
          BuildErr(docs, f, d + 1, r.error);
          return Fail(r.error);
        }
        ix := r.value;
      }
      assert docs[..|docs|] == docs;
      ngramsRoot := ngramsRoot[n := ix];
      return Pass;
    }

    /** `lookup(query_wrd)` */
    method Lookup(query: seq<string>) returns (r: Result<set<nat>>)
      modifies this
      ensures (r, ngramsRoot) == LookupSet(old(ngramsRoot), dictionary.State(), query)
    {
      var key := IdxOfAll(dictionary.State(), query);
      if key.Err? {
        return Err(key.error);
      }
      var n := |query|;
      if n !in ngramsRoot {
        return Err(KeyError);
      }
      var ix := ngramsRoot[n];
      if key.value !in ix {
        ngramsRoot := ngramsRoot[n := ix[key.value := {}]];
        return Ok({});
      }
      return Ok(ix[key.value]);
    }
  }
}
