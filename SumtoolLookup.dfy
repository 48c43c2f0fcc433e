/** `NgramLookup` of sumtool/ngram/ngram_lookup.py: documents are preprocessed strings, their
    words are mapped to ids by the engine's own `Dictionary`, and each order n is a
    packed-integer table built with the rolling key. The rolling key resets on the constant
    id 0 (`self.unk_idx`), while `lookup` tests the dictionary's `<unk>` id. */
module SumtoolNgramLookup {
  import opened Common
  import opened Packing
  import opened Vocabulary
  import opened DocIndex
  import opened PackedIndex
  import NgramDictionary
  import VocabCap
  import VocabFile
  import Text
  import IntKey

  /** `self.unk_idx`: the id the rolling key resets on. */
  const ResetId: nat := 0

  /** One document's keys: the ids of its words (`get_idx_by_wrd` for each word of
      `doc.split()`), then the rolling key. */
  function WordDocKeys(v: Vocab, n: nat, base: nat, doc: string): Result<seq<nat>>
    requires n >= 1
  {
    match IdxOfAll(v, Text.Split(doc))
    case Err(e) => Err(e)
    case Ok(ids) => DocKeys(ids, n, base, ResetId)
  }

  /** `build_ngrams(n)` and the orders it leaves behind: the assertion that the dictionary was
      built, the skip of an order already present, the first exception of the build. */
  function BuildOrder(root: map<nat, Table>, v: Vocab, n: nat, base: nat, docs: seq<string>): (Outcome, map<nat, Table>)
    requires n >= 1
  {
    if v.idx == 1 then (Fail(AssertionError("Build dictionary first")), root)
    else if n in root then (Pass, root)
    else
      match Build(docs, doc => WordDocKeys(v, n, base, doc))
      case Err(e) => (Fail(e), root)
      case Ok(t) => (Pass, root[n := t])
  }

  /** What `build_ngram_dictionary` leaves under order m, or the exception it raises there:
      the stored file when one exists (`load_ngram_dict`), otherwise what `build_ngrams(m)`
      keeps or builds. */
  function LoadedOrder(root: map<nat, Table>, stored: map<nat, Table>, v: Vocab, m: nat, base: nat, docs: seq<string>): Result<Table>
    requires m >= 1
  {
    if m in stored then Ok(stored[m])
    else if v.idx == 1 then Err(AssertionError("Build dictionary first"))
    else if m in root then Ok(root[m])
    else Build(docs, doc => WordDocKeys(v, m, base, doc))
  }

  /** `lookup(query_wrd)`: case 0 for no words; the ids of the words, whose lookup raises
      KeyError when `<unk>` is missing; case 1 when one of them is the dictionary's `<unk>` id;
      KeyError when order n was never built; otherwise the row of the packed key. */
  function LookupWords(root: map<nat, Table>, v: Vocab, base: nat, query: seq<string>): Result<Answer>
  {
    if |query| == 0 then Ok(Answer(0, {}))
    else
      match IdxOfAll(v, query)
      case Err(e) => Err(e)
      case Ok(ids) =>
        match UnkIdx(v)
        case Err(e) => Err(e)
        case Ok(u) =>
          if u in ids then Ok(Answer(1, {}))
          else if |query| !in root then Err(KeyError)
          else Ok(LookupIds(root[|query|], base, u, ids))
  }

  /** The build against its partner definition: once `<unk>` is registered and every id is a
      digit of MAX, the build passes, and document d is stored under key k exactly when k
      packs an n-window of d's ids that avoids id 0 and has a non-zero leading id. */
  lemma BuildOrderMembers(root: map<nat, Table>, v: Vocab, n: nat, base: nat, docs: seq<string>, k: nat, d: nat)
    requires n >= 1 && Valid(v) && Unk in v.wrdToIdx && v.idx <= base && v.idx != 1 && n !in root
    ensures BuildOrder(root, v, n, base, docs).0 == Pass && n in BuildOrder(root, v, n, base, docs).1
    ensures var t := BuildOrder(root, v, n, base, docs).1[n];
      k in t && d in t[k] <==> d < |docs| && PacksWindow(IdxOfAll(v, Text.Split(docs[d])).value, n, base, ResetId, k)
  {
    var f := (doc: string) => WordDocKeys(v, n, base, doc);
    forall e | 0 <= e < |docs|
      ensures f(docs[e]).Ok?
    {
      WordDocKeysMembers(v, n, base, docs[e], k);
    }
    BuildOk(docs, f);
    BuildMembers(docs, f, k, d);
    if d < |docs| {
      WordDocKeysMembers(v, n, base, docs[d], k);
    }
  }

  /** One document's keys against the reference. */
  lemma WordDocKeysMembers(v: Vocab, n: nat, base: nat, doc: string, k: nat)
    requires n >= 1 && Valid(v) && Unk in v.wrdToIdx && v.idx <= base
    ensures IdxOfAll(v, Text.Split(doc)).Ok? && WordDocKeys(v, n, base, doc).Ok?
    ensures k in WordDocKeys(v, n, base, doc).value <==> PacksWindow(IdxOfAll(v, Text.Split(doc)).value, n, base, ResetId, k)
  {
    var ids := IdxOfAll(v, Text.Split(doc));
    IdxOfAllTotal(v, Text.Split(doc));
    assert Below(ids.value, base);
    DocKeysMembers(ids.value, n, base, ResetId, k);
  }

  /** With `<unk>` registered, every word has an id below the counter. */
  lemma IdxOfAllTotal(v: Vocab, ws: seq<string>)
    requires Valid(v) && Unk in v.wrdToIdx
    ensures IdxOfAll(v, ws).Ok? && Below(IdxOfAll(v, ws).value, v.idx)
  {
  }

  /** Every call ends in exactly one case or raises, and the cases come in the source's order. */
  lemma LookupWordsCases(root: map<nat, Table>, v: Vocab, base: nat, query: seq<string>)
    ensures var r := LookupWords(root, v, base, query);
      (query == [] ==> r == Ok(Answer(0, {}))) &&
      (r.Err? ==> r.error == KeyError) &&
      (r.Ok? && query != [] ==> 1 <= r.value.kind <= 3 && UnkIdx(v).Ok? && IdxOfAll(v, query).Ok?) &&
      (r.Ok? && r.value.kind == 1 <==>
        (query != [] && IdxOfAll(v, query).Ok? && UnkIdx(v).Ok? && UnkIdx(v).value in IdxOfAll(v, query).value)) &&
      (r.Ok? && r.value.kind >= 2 ==>
        (|query| in root && (r.value.kind == 3 <==> Pack(IdxOfAll(v, query).value, base) in root[|query|])))
  {
    IdxOfAllErr(v, query);
    if query != [] && IdxOfAll(v, query).Ok? && UnkIdx(v).Ok? && |query| in root {
      LookupIdsCases(root[|query|], base, UnkIdx(v).value, IdxOfAll(v, query).value);
    }
  }

  /** The only exception a word lookup raises is KeyError, for an unseen word without `<unk>`. */
  lemma {:induction false} IdxOfAllErr(v: Vocab, ws: seq<string>)
    ensures IdxOfAll(v, ws).Err? ==> IdxOfAll(v, ws).error == KeyError
  {
    if ws != [] {
      IdxOfAllErr(v, ws[..|ws| - 1]);
    }
  }

  /** The attributes `NgramLookup.__init__` has set when it computes `self.MAX`. */
  const SetBeforeMax: set<string> := {"documents", "dictionary", "unk_idx", "ngrams_root"}

  /** `self.MAX = self._generate_int_key(self.tokenizer.vocab_size)` as written: reading an
      attribute that was never set raises AttributeError. */
  function MaxAsWritten(attributes: set<string>, vocabSize: int): Result<int>
  {
    if "tokenizer" in attributes then IntKey.GenerateIntKey(vocabSize) else Err(AttributeError)
  }

  /** No line of the class sets `self.tokenizer`, so constructing an `NgramLookup` raises
      AttributeError whatever the vocabulary size would have been. */
  lemma AsWrittenConstructionFails(vocabSize: int)
    ensures MaxAsWritten(SetBeforeMax, vocabSize) == Err(AttributeError)
    ensures vocabSize > 0 ==> MaxAsWritten(SetBeforeMax + {"tokenizer"}, vocabSize).Ok?
  {
  }

  class NgramLookup {
    const documents: seq<string>
    const dictionary: NgramDictionary.Dictionary
    var ngramsRoot: map<nat, Table>
    /** `self.MAX`: the radix of the packed keys. */
    const maxKey: nat

    /** `NgramLookup(documents)`: an empty dictionary of its own and no order built. */
    constructor (documents: seq<string>, maxKey: nat)
      ensures this.documents == documents && this.maxKey == maxKey && ngramsRoot == map[]
      ensures fresh(dictionary) && dictionary.State() == Empty && dictionary.Valid()
    {
      this.documents := documents;
      this.maxKey := maxKey;
      dictionary := new NgramDictionary.Dictionary();
      ngramsRoot := map[];
    }

    /** `build_dictionary(vocabs_path, max_vocab_size)`: an existing vocabulary file is loaded
        as it is; otherwise the dictionary is built from the documents and then capped. */
    method BuildDictionary(vocabsFile: Option<seq<VocabFile.Line>>, maxVocabSize: int) returns (outcome: Outcome)
      requires dictionary.Valid()
      modifies dictionary
      ensures vocabsFile.Some? ==>
        outcome == Pass && dictionary.State() == VocabFile.LoadFrom(old(dictionary.State()), vocabsFile.value)
      ensures vocabsFile.None? ==>
        (outcome, dictionary.State()) ==
          VocabCap.Limit(Vocabulary.BuildFromCorpus(old(dictionary.State()), documents, Text.Split), maxVocabSize)
    {
      if vocabsFile.Some? {
        dictionary.BuildFromFile(vocabsFile.value);
        return Pass;
      }
      dictionary.BuildFromCorpus(documents, Text.Split);
      outcome := dictionary.LimitMaxVocabSize(maxVocabSize);
    }

    /** `build_ngrams(n)` */
    method BuildNgrams(n: nat) returns (outcome: Outcome)
      requires n >= 1
      modifies this
      ensures (outcome, ngramsRoot) == BuildOrder(old(ngramsRoot), dictionary.State(), n, maxKey, documents)
    {
      var v := dictionary.State();
      if v.idx == 1 {
        return Fail(AssertionError("Build dictionary first"));
      }
      if n in ngramsRoot {
        return Pass;
      }
      ghost var f := (doc: string) => WordDocKeys(v, n, maxKey, doc);
      var p := Positions(map[], []);
      EmptyAligned();
      assert documents[..0] == [];
      for d := 0 to |documents|
        invariant Aligned(p) && Build(documents[..d], f) == Ok(Rows(p))
        invariant ngramsRoot == old(ngramsRoot)
      {
        BuildSnoc(documents, f, d);
        var indices := IdxOfAll(v, Text.Split(documents[d]));
        if indices.Err? {
          BuildErr(documents, f, d + 1, indices.error);
          return Fail(indices.error);
        }
        var next := AddDocument(p, d, indices.value, n, maxKey, ResetId);
        if next.Err? {
          BuildErr(documents, f, d + 1, next.error);
          return Fail(next.error);
        }
        p := next.value;
      }
      assert documents[..|documents|] == documents;
      ngramsRoot := ngramsRoot[n := Rows(p)];
      return Pass;
    }

    /** One order of `build_ngram_dictionary`: loaded from `stored` when its file exists,
        built otherwise; no other order changes. */
    method LoadOrBuild(n: nat, stored: map<nat, Table>) returns (outcome: Outcome)
      requires n >= 1
      modifies this
      ensures var loaded := LoadedOrder(old(ngramsRoot), stored, dictionary.State(), n, maxKey, documents);
        && (outcome == Pass <==> loaded.Ok?)
        && (outcome == Pass ==> n in ngramsRoot && loaded == Ok(ngramsRoot[n]))
        && (outcome.Fail? ==> loaded == Err(outcome.error))
      ensures n !in stored ==>
                (outcome, ngramsRoot) == BuildOrder(old(ngramsRoot), dictionary.State(), n, maxKey, documents)
      ensures forall m :: m != n ==>
                (m in ngramsRoot <==> m in old(ngramsRoot)) && (m in ngramsRoot ==> ngramsRoot[m] == old(ngramsRoot)[m])
    {
      if n in stored {
        ngramsRoot := ngramsRoot[n := stored[n]];
        return Pass;
      }
      outcome := BuildNgrams(n);
    }

    /** `build_ngram_dictionary(min_n, max_n)`: every order min_n..max_n is loaded or built,
        then each must be non-empty. It passes exactly when every order loads and is
        non-empty; otherwise it raises the exception of the first order that fails, or the
        closing AssertionError. */
    method BuildNgramDictionary(minN: nat, maxN: nat, stored: map<nat, Table>) returns (outcome: Outcome)
      requires minN >= 1
      modifies this
      ensures outcome == Pass <==> forall m :: minN <= m <= maxN ==>
                LoadedOrder(old(ngramsRoot), stored, dictionary.State(), m, maxKey, documents).Ok? &&
                LoadedOrder(old(ngramsRoot), stored, dictionary.State(), m, maxKey, documents).value != map[]
      ensures outcome == Pass ==> forall m :: minN <= m <= maxN ==>
                m in ngramsRoot &&
                LoadedOrder(old(ngramsRoot), stored, dictionary.State(), m, maxKey, documents) == Ok(ngramsRoot[m])
      ensures outcome.Fail? ==>
                (exists m :: minN <= m <= maxN &&
                   LoadedOrder(old(ngramsRoot), stored, dictionary.State(), m, maxKey, documents) == Err(outcome.error) &&
                   forall j :: minN <= j < m ==> LoadedOrder(old(ngramsRoot), stored, dictionary.State(), j, maxKey, documents).Ok?) ||
                outcome.error == AssertionError("ngram dictionaries are not built")
      ensures forall m :: m !in stored && m in old(ngramsRoot) ==> m in ngramsRoot && ngramsRoot[m] == old(ngramsRoot)[m]
      ensures forall m :: (m < minN || maxN < m) ==>
                (m in ngramsRoot <==> m in old(ngramsRoot)) && (m in ngramsRoot ==> ngramsRoot[m] == old(ngramsRoot)[m])
    {
      ghost var root0 := ngramsRoot;
      ghost var v := dictionary.State();
      var n := minN;
      while n <= maxN
        invariant minN <= n && (n <= maxN + 1 || n == minN)
        invariant forall m :: minN <= m < n ==>
                    m in ngramsRoot && LoadedOrder(root0, stored, v, m, maxKey, documents) == Ok(ngramsRoot[m])
        invariant forall m :: m !in stored && m in root0 ==> m in ngramsRoot && ngramsRoot[m] == root0[m]
        invariant forall m :: (m < minN || n <= m) ==>
                    (m in ngramsRoot <==> m in root0) && (m in ngramsRoot ==> ngramsRoot[m] == root0[m])
      {
        assert LoadedOrder(ngramsRoot, stored, v, n, maxKey, documents) ==
               LoadedOrder(root0, stored, v, n, maxKey, documents);
        outcome := LoadOrBuild(n, stored);
        if outcome.Fail? {
          return;
        }
        n := n + 1;
      }
      var built := AllBuilt(minN, maxN);
      if !built {
        ghost var m :| minN <= m <= maxN && ngramsRoot[m] == map[];
        assert LoadedOrder(root0, stored, v, m, maxKey, documents).value == map[];
        assert v == dictionary.State() && root0 == old(ngramsRoot);
        assert !(LoadedOrder(old(ngramsRoot), stored, dictionary.State(), m, maxKey, documents).Ok? &&
                 LoadedOrder(old(ngramsRoot), stored, dictionary.State(), m, maxKey, documents).value != map[]);
        return Fail(AssertionError("ngram dictionaries are not built"));
      }
      return Pass;
    }

    /** The closing assertion of `build_ngram_dictionary`. */
    method AllBuilt(minN: nat, maxN: nat) returns (built: bool)
      requires forall m :: minN <= m <= maxN ==> m in ngramsRoot
      ensures built <==> forall m :: minN <= m <= maxN ==> ngramsRoot[m] != map[]
    {
      var m := minN;
      while m <= maxN
        invariant minN <= m && (m <= maxN + 1 || m == minN)
        invariant forall j :: minN <= j < m ==> ngramsRoot[j] != map[]
      {
        if ngramsRoot[m] == map[] {
          return false;
        }
        m := m + 1;
      }
      return true;
    }

    /** `lookup(query_wrd)` */
    method Lookup(query: seq<string>) returns (r: Result<Answer>)
      ensures r == LookupWords(ngramsRoot, dictionary.State(), maxKey, query)
    {
      var n := |query|;
      if n == 0 {
        return Ok(Answer(0, {}));
      }
      var v := dictionary.State();
      var ids := IdxOfAll(v, query);
      if ids.Err? {
        return Err(ids.error);
      }
      var u := UnkIdx(v);
      if u.Err? {
        return Err(u.error);
      }
      if u.value in ids.value {
        return Ok(Answer(1, {}));
      }
      var ngramInt := PackQuery(ids.value, maxKey);
      if n !in ngramsRoot {
        return Err(KeyError);
      }
      var table := ngramsRoot[n];
      if ngramInt !in table {
        return Ok(Answer(2, {}));
      }
      return Ok(Answer(3, table[ngramInt]));
    }
  }
}
