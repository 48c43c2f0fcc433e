/** `NgramLookup` of ngram_lookup.py: like ngram/ngram_lookup.py, but each window of words is
    mapped to ids on its own (`get_idx_by_wrd` element-wise; the `get_idx_by_wrd_multiple`
    the code calls does not exist on its `Dictionary`, see `TupleIndex.AsWrittenBuildFails`). */
module RootNgramLookup {
  import opened Common
  import opened Vocabulary
  import opened DocIndex
  import opened TupleIndex
  import NgramDictionary
  import Text

  /** Lines 66-70 for one document: every window of words, mapped to ids, is added under
      those ids. */
  method AddDocument(ix0: Index, v: Vocab, n: nat, d: nat, words: seq<string>) returns (r: Result<Index>)
    ensures WordWindowKeys(v, n, words).Err? ==> r == Err(WordWindowKeys(v, n, words).error)
    ensures WordWindowKeys(v, n, words).Ok? ==> r == Ok(AddDoc(ix0, d, WordWindowKeys(v, n, words).value))
  {
    var ws := Windows(words, n);
    var ix := ix0;
    assert ws[..0] == [];
    for j := 0 to |ws|
      invariant IdsOfWindows(v, ws[..j]).Ok?
      invariant ix == AddDoc(ix0, d, IdsOfWindows(v, ws[..j]).value)
    {
      var k := IdxOfAll(v, ws[j]);
      IdsOfWindowsSnoc(v, ws, j);
      if k.Err? {
        IdsOfWindowsErr(v, ws, j + 1, k.error);
        return Err(k.error);
      }
      ghost var prior := IdsOfWindows(v, ws[..j]).value;
      AddDocSnoc(ix0, d, prior, k.value);
      ix := ix[k.value := (if k.value in ix then ix[k.value] else {}) + {d}];
    }
    assert ws[..|ws|] == ws;
    return Ok(ix);
  }

  class NgramLookup {
    const documents: seq<string>
    const ids: seq<string>
    const dictionary: NgramDictionary.Dictionary
    var ngramsRoot: map<nat, Index>

    /** `NgramLookup(documents, ids, dictionary)`: no order built. */
    constructor (documents: seq<string>, ids: seq<string>, dictionary: NgramDictionary.Dictionary)
      ensures this.documents == documents && this.ids == ids && this.dictionary == dictionary
      ensures ngramsRoot == map[]
    {
      this.documents := documents;
      this.ids := ids;
      this.dictionary := dictionary;
      ngramsRoot := map[];
    }

    /** `build_ngrams(n)` */
    method BuildNgrams(n: nat) returns (outcome: Outcome)
      modifies this
      ensures (outcome, ngramsRoot) ==
        BuildOrder(old(ngramsRoot), WordWindows, dictionary.State(), n, MapSeq(Text.Words, documents))
    {
      var v := dictionary.State();
      if v.idx == 1 {
        return Fail(AssertionError("Build dictionary first"));
      }
      if n in ngramsRoot {
        return Pass;
      }
      ghost var docs := MapSeq(Text.Words, documents);
      ghost var f := KeyFn(WordWindows, v, n);
      var ix: Index := map[];
      assert docs[..0] == [];
      for d := 0 to |documents|
        invariant Build(docs[..d], f) == Ok(ix)
        invariant ngramsRoot == old(ngramsRoot)
      {
        var words := Text.Words(documents[d]);
        var r := AddDocument(ix, v, n, d, words);
        assert f(docs[d]) == WordWindowKeys(v, n, words);
        BuildSnoc(docs, f, d);
        if r.Err? {
          BuildErr(docs, f, d + 1, r.error);
          return Fail(r.error);
        }
        ix := r.value;
      }
      assert docs[..|docs|] == docs;
      ngramsRoot := ngramsRoot[n := ix];
      return Pass;
    }

    /** `lookup(query_wrd)` */
    method Lookup(query: seq<string>) returns (r: Result<set<nat>>)
      modifies this
      ensures (r, ngramsRoot) == LookupSet(old(ngramsRoot), dictionary.State(), query)
    {
      var key := IdxOfAll(dictionary.State(), query);
      if key.Err? {
        return Err(key.error);
      }
      var n := |query|;
      if n !in ngramsRoot {
        return Err(KeyError);
      }
      var ix := ngramsRoot[n];
      if key.value !in ix {
        ngramsRoot := ngramsRoot[n := ix[key.value := {}]];
        return Ok({});
      }
      return Ok(ix[key.value]);
    }
  }
}
