/** `NgramSummaryLookup` of sumtool/ngram/ngram_summary_lookup.py, the bigram-only engine:
    documents and summaries are encoded by a tokenizer, MAX is `round(vocab_size, -5)`, and
    summaries are always looked up by bigrams, whatever order is asked for. */
module NgramSummaryLookup {
  import opened Common
  import opened Packing
  import opened IntKey
  import opened DocIndex
  import opened PackedIndex
  import opened SummaryIndex

  class NgramSummaryLookup {
    const documents: seq<string>
    const tokenizer: Tokenizer
    /** `self.unk_idx`: the tokenizer's `<unk>` id. */
    const unkIdx: nat
    var ngramsRoot: map<nat, Table>
    /** `self.MAX`: the radix of the packed keys. */
    const maxKey: nat

    /** `NgramSummaryLookup(documents, tokenizer)`: no order built yet; MAX is the vocabulary
        size rounded half-to-even to a multiple of 100000, which may be 0 or below some id. */
    constructor (documents: seq<string>, tokenizer: Tokenizer)
      ensures this.documents == documents && this.tokenizer == tokenizer
      ensures unkIdx == tokenizer.unkTokenId && ngramsRoot == map[]
      ensures maxKey == RoundedKey(tokenizer.vocabSize)
    {
      this.documents := documents;
      this.tokenizer := tokenizer;
      unkIdx := tokenizer.unkTokenId;
      ngramsRoot := map[];
      maxKey := RoundedKey(tokenizer.vocabSize);
    }

    /** `build_ngrams(n)` */
    method BuildNgrams(n: nat) returns (outcome: Outcome)
      requires n >= 1
      modifies this
      ensures (outcome, ngramsRoot) == BuildOrder(old(ngramsRoot), Encoded(tokenizer, documents), n, maxKey, unkIdx)
    {
      if n in ngramsRoot {
        return Pass;
      }
      var table := BuildRows(Encoded(tokenizer, documents), n, maxKey, unkIdx);
      if table.Err? {
        return Fail(table.error);
      }
      ngramsRoot := ngramsRoot[n := table.value];
      return Pass;
    }

    /** One order of `build_ngram_dictionary`: loaded from `stored` when its file exists
        (`load_ngram_dict`), built otherwise; no other order changes. */
    method LoadOrBuild(n: nat, stored: map<nat, Table>) returns (outcome: Outcome)
      requires n >= 1
      modifies this
      ensures var loaded := LoadedOrder(old(ngramsRoot), stored, Encoded(tokenizer, documents), n, maxKey, unkIdx);
        && (outcome == Pass <==> loaded.Ok?)
        && (outcome == Pass ==> n in ngramsRoot && loaded == Ok(ngramsRoot[n]))
        && (outcome.Fail? ==> loaded == Err(outcome.error))
      ensures n !in stored ==>
                (outcome, ngramsRoot) == BuildOrder(old(ngramsRoot), Encoded(tokenizer, documents), n, maxKey, unkIdx)
      ensures forall m :: m != n ==>
                (m in ngramsRoot <==> m in old(ngramsRoot)) && (m in ngramsRoot ==> ngramsRoot[m] == old(ngramsRoot)[m])
    {
      if n in stored {
        ngramsRoot := ngramsRoot[n := stored[n]];
        return Pass;
      }
      outcome := BuildNgrams(n);
    }

    /** `build_ngram_dictionary(min_n, max_n)`: every order min_n..max_n is loaded or built
        (an order already present and not stored is kept), then each must be non-empty. It
        passes exactly when every order loads and is non-empty; otherwise it raises the
        exception of the first order that fails, or the closing AssertionError. */
    method BuildNgramDictionary(minN: nat, maxN: nat, stored: map<nat, Table>) returns (outcome: Outcome)
      requires minN >= 1
      modifies this
      ensures outcome == Pass <==> forall m :: minN <= m <= maxN ==> LoadedOrder(old(ngramsRoot), stored, Encoded(tokenizer, documents), m, maxKey, unkIdx).Ok? && LoadedOrder(old(ngramsRoot), stored, Encoded(tokenizer, documents), m, maxKey, unkIdx).value != map[]
      ensures outcome == Pass ==> forall m :: minN <= m <= maxN ==> m in ngramsRoot && LoadedOrder(old(ngramsRoot), stored, Encoded(tokenizer, documents), m, maxKey, unkIdx) == Ok(ngramsRoot[m])
      ensures outcome.Fail? ==>
                (exists m :: minN <= m <= maxN && LoadedOrder(old(ngramsRoot), stored, Encoded(tokenizer, documents), m, maxKey, unkIdx) == Err(outcome.error) &&
                   forall j :: minN <= j < m ==> LoadedOrder(old(ngramsRoot), stored, Encoded(tokenizer, documents), j, maxKey, unkIdx).Ok?) ||
                outcome.error == AssertionError("ngram dictionaries are not built")
      ensures forall m :: m !in stored && m in old(ngramsRoot) ==> m in ngramsRoot && ngramsRoot[m] == old(ngramsRoot)[m]
      ensures forall m :: (m < minN || maxN < m) ==>
                (m in ngramsRoot <==> m in old(ngramsRoot)) && (m in ngramsRoot ==> ngramsRoot[m] == old(ngramsRoot)[m])
    {
      ghost var root0 := ngramsRoot;
      ghost var docs := Encoded(tokenizer, documents);
      var n := minN;
      while n <= maxN
        invariant minN <= n && (n <= maxN + 1 || n == minN)
        invariant forall m :: minN <= m < n ==> m in ngramsRoot && LoadedOrder(root0, stored, docs, m, maxKey, unkIdx) == Ok(ngramsRoot[m])
        invariant forall m :: m !in stored && m in root0 ==> m in ngramsRoot && ngramsRoot[m] == root0[m]
        invariant forall m :: (m < minN || n <= m) ==>
                    (m in ngramsRoot <==> m in root0) && (m in ngramsRoot ==> ngramsRoot[m] == root0[m])
      {
        assert LoadedOrder(ngramsRoot, stored, docs, n, maxKey, unkIdx) == LoadedOrder(root0, stored, docs, n, maxKey, unkIdx);
        outcome := LoadOrBuild(n, stored);
        if outcome.Fail? {
          return;
        }
        n := n + 1;
      }
      var built := AllBuilt(minN, maxN);
      if !built {
        ghost var m :| minN <= m <= maxN && ngramsRoot[m] == map[];
        assert LoadedOrder(root0, stored, docs, m, maxKey, unkIdx).value == map[];
        assert docs == Encoded(tokenizer, documents) && root0 == old(ngramsRoot);
        assert !(LoadedOrder(old(ngramsRoot), stored, Encoded(tokenizer, documents), m, maxKey, unkIdx).Ok? && LoadedOrder(old(ngramsRoot), stored, Encoded(tokenizer, documents), m, maxKey, unkIdx).value != map[]);
        return Fail(AssertionError("ngram dictionaries are not built"));
      }
      return Pass;
    }

    /** The closing assertion of `build_ngram_dictionary`. */
    method AllBuilt(minN: nat, maxN: nat) returns (built: bool)
      requires forall m :: minN <= m <= maxN ==> m in ngramsRoot
      ensures built <==> forall m :: minN <= m <= maxN ==> ngramsRoot[m] != map[]
    {
      var m := minN;
      while m <= maxN
        invariant minN <= m && (m <= maxN + 1 || m == minN)
        invariant forall j :: minN <= j < m ==> ngramsRoot[j] != map[]
      {
        if ngramsRoot[m] == map[] {
          return false;
        }
        m := m + 1;
      }
      return true;
    }

    /** `lookup(query_idx, ngram_df)` */
    method Lookup(queryIdx: seq<nat>, table: Table) returns (a: Answer)
      ensures a == LookupIds(table, maxKey, unkIdx, queryIdx)
    {
      a := LookupQuery(queryIdx, table, maxKey, unkIdx);
    }

    /** `lookup_summary_from_dataset(summary, n)`: KeyError when order n was never built;
        otherwise one entry per bigram of the encoded summary, in order, each looked up in
        the table of order n. */
    method LookupSummaryFromDataset(summary: string, n: nat) returns (r: Result<seq<Match>>)
      ensures n !in ngramsRoot ==> r == Err(KeyError)
      ensures n in ngramsRoot ==>
        var ws := Windows(tokenizer.encode(summary), 2);
        r.Ok? && |r.value| == |ws| &&
        forall i :: 0 <= i < |ws| ==> r.value[i] == Match(ws[i], LookupIds(ngramsRoot[n], maxKey, unkIdx, ws[i]))
    {
      var summaryIndices := tokenizer.encode(summary);
      if n !in ngramsRoot {
        return Err(KeyError);
      }
      var matches := LookupWindows(Windows(summaryIndices, 2), ngramsRoot[n], maxKey, unkIdx);
      return Ok(matches);
    }

    /** `lookup_summary_from_document(summary, document, n)`: one row per bigram of the
        encoded summary, counted against the bigrams of the encoded document; n is unused. */
    method LookupSummaryFromDocument(summary: string, document: string, n: nat) returns (rows: seq<CountRow>)
      ensures var ws := Windows(tokenizer.encode(summary), 2);
        |rows| == |ws| &&
        forall i :: 0 <= i < |ws| ==> rows[i] == DocumentRow(ws[i], tokenizer.encode(document), unkIdx)
    {
      rows := LookupCounts(tokenizer.encode(summary), tokenizer.encode(document), 2, unkIdx);
    }
  }

  /** With a BERT-sized vocabulary (30522 ids) MAX rounds to 0, and building any order n >= 2
      raises ZeroDivisionError as soon as a document holds an id other than `<unk>`. */
  lemma SmallVocabularyBuildFails(root: map<nat, Table>, docs: seq<seq<nat>>, n: nat, unk: nat, d: nat, i: nat)
    requires n >= 2 && n !in root && d < |docs| && i < |docs[d]| && docs[d][i] != unk
    ensures BuildOrder(root, docs, n, RoundedKey(30522), unk) == (Fail(ZeroDivisionError), root)
  {
    RoundedKeyTooSmall();
    BuildOrderZeroRadix(root, docs, n, unk, d, i);
  }
}
