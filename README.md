# sumtool n-gram engine, prefix trie and annotation overlay, in Dafny

This project models the n-gram machinery of the sumtool repository. Summaries generated for
XSum articles are checked against the training documents by looking up their n-grams.
The model covers:

- **The vocabulary `Dictionary`**, in its three variants:
  - interface/backend/ngram/dictionary.py, which adds a vocabulary cap;
  - ngram/dictionary.py;
  - the root dictionary.py.
  
  It keeps a word <-> id map with dense ids in first-seen order, a per-id frequency table and
  the `<unk>` fallback. It loads and saves `word\tfreq` files.
- **The tuple-keyed n-gram indices** of interface/backend/ngram/ngram_lookup.py,
  ngram/ngram_lookup.py and ngram_lookup.py. Each maps every n-window of a document's ids to
  the set of documents that hold it.
- **The packed-integer n-gram tables** of sumtool/ngram/ngram_lookup.py,
  sumtool/ngram/summary_ngram_lookup.py and sumtool/ngram/ngram_summary_lookup.py:
  - each window is one integer, computed by a rolling radix key that `<unk>` resets;
  - a key -> position map and a list of document sets must stay aligned;
  - lookup sorts a query into four cases: no query, `<unk>` in the query, no match, match;
  - a summary can be looked up window by window, against the whole corpus or against one
    document.
- **The prefix-count trie** of trie.py.
- **The annotation overlay** of interface/utils/faithfulness_annotations.py, repeated
  verbatim at interface/faithfulness_interface.py:12-90:
  - `annotation_overlap` cuts `[text, tag set]` chunks so that one label covers a
    character range;
  - `annotation_merge` joins neighbours with equal labels;
  - `annotation_render` turns chunks into display items.

**How the model is laid out.**

- **Shared modules.**
  - `Common` holds `Windows(s, n)`, the `zip(*[s[k:] for k in range(n)])` idiom, and the
    Option/Result/Error types.
  - `Packing` holds the radix packing `Pack(ids, MAX)` and its injectivity.
  - `Text` holds `str.strip`, `str.split` and `preprocess`.
- **Vocabulary.** `Vocabulary` gives the dictionary's state and operations as functions on a
  `Vocab` value. `VocabCap` gives `limit_max_vocab_size`. `VocabFile` gives the line format.
  `FreqSort` gives the stable descending sort.
- **The dictionary class.** `NgramDictionary.Dictionary` is the class with the four fields
  the source updates in place. Each of its methods is proved against those functions.
- **The tuple-keyed indices.**
  - `DocIndex` is the fold of per-document keys into an index.
  - `TupleIndex` holds the three key rules and the lookups.
  - `BackendNgramLookup`, `LineNgramLookup` and `RootNgramLookup` are the three engine
    classes.
- **The packed-integer tables.**
  - `PackedIndex` holds the rolling key, the aligned key/position structures and the table
    lookup.
  - `IntKey` holds `_generate_int_key` and the rounded radix.
  - `SummaryIndex` holds the summary lookups.
  - `SumtoolNgramLookup`, `SummaryNgramLookup` and `NgramSummaryLookup` are the three engine
    classes.
- **The trie.** `Trie` is a class over immutable node values, together with the ghost history
  of added n-grams.
- **The annotation overlay.** `Annotations` works on chunk lists. Every result is stated
  through `Text` (the characters) and `Expand` (the label set of each character).

The source's I/O becomes parameters:

- a vocabulary file is a sequence of `Line(wrd, freq)`;
- the parquet/pickle files that exist are a `stored` map from order to table;
- the tokenizer is a datatype holding an `encode` function, `unk_token_id` and `vocab_size`;
- `render`'s `func_text` and `func_color` are function parameters.

## Model

| member | source | states |
|---|---|---|
| Common.Windows | interface/backend/ngram/ngram_lookup.py:119-123 | The windows of length n, in order. There are max(0, len - n + 1) of them, and none when n = 0. |
| Common.WindowsMembership | ngram/ngram_lookup.py:68-71 | A sequence is a window of s exactly when it is a contiguous piece of s of length n. |
| Common.WindowsOfMap | ngram_lookup.py:66-70 | Mapping each word of each window equals taking the windows of the mapped words. |
| Text.Strip | dictionary.py:27 | `str.strip()`: a contiguous piece of s with no whitespace at either end. |
| Text.StripLeftSpec | dictionary.py:27 | Stripping the left end removes exactly the leading whitespace. |
| Text.StripRightSpec | dictionary.py:27 | Stripping the right end removes exactly the trailing whitespace. |
| Text.StripNonSpace | ngram/dictionary.py:53 | Stripping changes no non-whitespace character. So `doc.strip().split()` yields the same tokens as `doc.split()`. |
| Text.Split | interface/backend/ngram/dictionary.py:53 | `str.split()`: the tokens are non-empty and free of whitespace. Together they are exactly the non-whitespace characters of s, in order. s is the tokens interleaved with whitespace gaps, and every inner gap is non-empty, so each token is a maximal whitespace-free run. |
| Text.Words | ngram/dictionary.py:53 | `doc.strip().split()` gives the same tokens as `doc.split()`: non-empty, whitespace-free, maximal, and covering every non-whitespace character. |
| Text.Preprocess | ngram/ngram_lookup.py:13-26 | `preprocess`: the output is the non-punctuation characters of the stripped text, in order, each lower-cased, with a control character replaced by a space. It is no longer than the input and holds no punctuation, upper-case or control character. |
| Text.PreprocessTokens | interface/backend/ngram/ngram_lookup.py:20-36 | Backend `preprocess`: the tokens are exactly `split()` of the cleaned text. Each is non-empty, lower-case, and free of whitespace, punctuation and control characters, and they cover the cleaned text. |
| Text.SplitInterleave | interface/backend/ngram/dictionary.py:53 | Partner of `split()`: words joined by whitespace gaps, with the inner gaps non-empty, split back into exactly those words. |
| Text.SplitStrip | ngram/dictionary.py:53 | Stripping before splitting changes no token. |
| Text.RemovePunctPositions | ngram/ngram_lookup.py:20-21 | Removing punctuation keeps exactly the positions of the non-punctuation characters, in increasing order. |
| Vocabulary.ValidCard | ngram/dictionary.py:139-148 | `get_num_of_words`: the counter equals the number of registered words, in both maps. |
| Vocabulary.Bump | interface/backend/ngram/dictionary.py:137 | `wrd_freq[i] += 1`: exactly entry i grows by one, and a new key is added only at the end. |
| Vocabulary.AddWrd | interface/backend/ngram/dictionary.py:124-137 | `add_wrd`: an unseen word gets the counter as its id and the counter grows, while a seen word keeps its id. The maps stay inverse and dense. Exactly that word's frequency rises by one. |
| Vocabulary.UnkIdx | interface/backend/ngram/dictionary.py:121-122 | `get_unk_idx`: a KeyError exactly when `<unk>` is unregistered; otherwise the id whose word is `<unk>`. |
| Vocabulary.IdxOf | interface/backend/ngram/dictionary.py:167-180 | `get_idx_by_wrd`: it fails only for an unseen word when `<unk>` is missing. Otherwise it returns an id below the counter. |
| Vocabulary.WrdOf | interface/backend/ngram/dictionary.py:139-152 | `get_wrd_by_idx`: any result other than `"<unk>"` is the registered word of that id. |
| Vocabulary.LookupsInverse | dictionary.py:57-87 | A word resolves to id i iff i is its own id, or it is unseen and i is `<unk>`'s id. An id resolves to `"<unk>"` iff it is unregistered or is `<unk>`'s id. Both directions round-trip for registered entries. |
| Vocabulary.IdxOfAll | interface/backend/ngram/dictionary.py:182-193 | `get_idx_by_wrd_multiple`: element-wise `get_idx_by_wrd`, failing exactly when some word fails. |
| Vocabulary.WrdOfAll | interface/backend/ngram/dictionary.py:154-165 | `get_wrd_by_idx_multiple`: element-wise `get_wrd_by_idx`. |
| Vocabulary.IdsWordsRoundTrip | ngram/dictionary.py:95-137 | Registered words survive the round trip through their ids. |
| Vocabulary.AddAllKeys | interface/backend/ngram/dictionary.py:52-54 | Adding words registers exactly those words. Old ids are kept, and new ids come after the old counter. |
| Vocabulary.AddAllCounts | interface/backend/ngram/dictionary.py:52-54 | Each word's frequency rises by its number of occurrences in the added sequence. |
| Vocabulary.BuildFromCorpusFresh | interface/backend/ngram/dictionary.py:43-54 | On a fresh dictionary, `<unk>` gets id 0 and exactly `<unk>` and the corpus tokens are registered. Each token's frequency is its number of occurrences, plus one for `<unk>`. |
| Vocabulary.Seeded | dictionary.py:14-32 | A root dictionary built without a file: only `<unk>`, with id 0, counter 1 and frequency 1. |
| NgramDictionary.Dictionary.constructor | interface/backend/ngram/dictionary.py:15-20 | A fresh dictionary registers nothing. |
| NgramDictionary.Dictionary.Root | dictionary.py:14-32 | The root constructor: without a file, only `<unk>`; with one, every stripped line is added in order. |
| NgramDictionary.Dictionary.AddLines | dictionary.py:25-28 | The constructor loop leaves the state that `add_wrd` over the stripped lines gives. |
| NgramDictionary.Dictionary.AddWrd | ngram/dictionary.py:63-77 | The fields after `add_wrd` are `Vocabulary.AddWrd` of the fields before, and the dictionary stays consistent. |
| NgramDictionary.Dictionary.AddWords | interface/backend/ngram/dictionary.py:53-54 | The token loop leaves `add_wrd` applied to every token, in order. |
| NgramDictionary.Dictionary.BuildFromCorpus | ngram/dictionary.py:42-54 | `build_from_corpus` leaves `<unk>` followed by every token of every document, for the given tokenizer. |
| NgramDictionary.Dictionary.BuildFromFile | interface/backend/ngram/dictionary.py:22-41 | Line i adds its word and sets frequency entry i. On a fresh dictionary the result is the file's dictionary. |
| NgramDictionary.Dictionary.SaveAsFile | interface/backend/ngram/dictionary.py:241-252 | One `(word, freq)` line per frequency entry, in id order. |
| NgramDictionary.Dictionary.SaveSortedAsFile | ngram/dictionary.py:182-188 | The evidently intended save: one line per frequency entry, most frequent first. |
| NgramDictionary.Dictionary.LimitMaxVocabSize | interface/backend/ngram/dictionary.py:56-115 | The outcome and the fields afterwards are `VocabCap.Limit`'s. That includes the fields already replaced when a later assertion fails. |
| NgramDictionary.NewSortedWrdFreq | interface/backend/ngram/dictionary.py:71-81 | The keys are `<unk>` followed by the ids among the first max-1 of the frequency order. The values are their frequencies, with one added to `<unk>` per later id. |
| NgramDictionary.NewWordIds | interface/backend/ngram/dictionary.py:97-100 | Every word whose old id survives is stored under its new id, and no other word is. |
| NgramDictionary.LimitInverted | interface/backend/ngram/dictionary.py:106 | Inverting the new word map gives the new id map. |
| FreqSort.SortByFreq | interface/backend/ngram/dictionary.py:257-258 | Every id appears exactly once, in descending frequency. |
| FreqSort.SortByFreqSorted | interface/backend/ngram/dictionary.py:257-258 | The order is descending in frequency, with ties in ascending id order (a stable reverse sort). |
| FreqSort.SortedUnique | interface/backend/ngram/dictionary.py:257-258 | Only one ordering of the ids is sorted that way. |
| VocabCap.Limit | interface/backend/ngram/dictionary.py:56-115 | `limit_max_vocab_size` as a function: the outcome and the four fields afterwards, including a KeyError without `<unk>` and each failing assertion. |
| VocabCap.LimitOutcome | interface/backend/ngram/dictionary.py:65-83 | For a dictionary built from a corpus: capping is a no-op when counter <= max and a KeyError without `<unk>`. Otherwise it succeeds iff max >= 1 and `<unk>` is not among the first max-1 ids of the frequency order. |
| VocabCap.KeptSize | interface/backend/ngram/dictionary.py:75-83 | The kept ids reach max exactly when max >= 1 and `<unk>` is not itself among the first max-1 ids. |
| VocabCap.LimitShape | interface/backend/ngram/dictionary.py:83-115 | After a successful cap the dictionary is consistent, all three tables and the counter equal max, and `<unk>` has id 0. |
| VocabCap.LimitUnkFreq | interface/backend/ngram/dictionary.py:76-79 | `<unk>`'s frequency rises by one per evicted id, not by the evicted frequencies. |
| VocabCap.LimitRetained | interface/backend/ngram/dictionary.py:75-100 | The survivors are `<unk>` and the words among the first max-1 ids of the frequency order. Every survivor other than `<unk>` keeps its frequency. |
| VocabCap.LimitRanks | interface/backend/ngram/dictionary.py:68-100 | Survivors are renumbered in descending frequency, ties by old id. No evicted word is more frequent than a surviving word other than `<unk>`. |
| VocabCap.NewWordsInverse | interface/backend/ngram/dictionary.py:92-100 | Each surviving word maps to the position of its old id in the kept order. |
| VocabCap.NewIdsInverse | interface/backend/ngram/dictionary.py:106 | Each new id maps back to the word renumbered to it. |
| VocabFile.LoadDistinct | interface/backend/ngram/dictionary.py:31-41 | A file of distinct words loads line i as id i with the line's frequency. |
| VocabFile.SameIdsSameWords | interface/backend/ngram/dictionary.py:18-19 | Two consistent dictionaries with the same id-to-word map have the same word-to-id map. |
| VocabFile.BuildFromFileIsLoad | interface/backend/ngram/dictionary.py:41 | The closing `idx = len(wrd_to_idx)` changes nothing. |
| VocabFile.SaveByIdIds | interface/backend/ngram/dictionary.py:250-252 | The id-order file lists exactly the id-to-word map and the frequency table. |
| VocabFile.SaveByIdRoundTrip | interface/backend/ngram/dictionary.py:22-41 | Saving a consistent dictionary whose every frequency entry belongs to a word in id order, then loading the file into a fresh dictionary, reproduces both maps, the counter and every frequency. |
| VocabFile.SaveByFreqDescending | ngram/dictionary.py:182-188 | The frequency-ordered file lists frequencies in descending order. |
| VocabFile.SaveByFreqRoundTrip | ngram/dictionary.py:22-40 | Saving by frequency and loading back keeps every word and its frequency. Each word's new id is its frequency rank. |
| VocabFile.SavedKeys | ngram/dictionary.py:186-188 | The words of the file are exactly the words of the dictionary. |
| DocIndex.AddDocSpec | ngram/ngram_lookup.py:70-71 | Adding a document creates exactly its keys and puts the document under each of them. Every other entry is untouched. |
| DocIndex.BuildOk | ngram/ngram_lookup.py:65-71 | The build succeeds exactly when every document's keys can be computed. |
| DocIndex.BuildMembers | ngram/ngram_lookup.py:65-73 | k is a key iff some document has it, and document d is stored under k iff k is one of d's keys. |
| DocIndex.BuildErr | ngram_lookup.py:65-70 | Once a document raises, the whole build raises that exception. |
| TupleIndex.BuildIndexMembers | interface/backend/ngram/ngram_lookup.py:117-126 | Index membership for each engine's key rule. |
| TupleIndex.KeyLengths | interface/backend/ngram/ngram_lookup.py:119-123 | Every key of a built index has length n. |
| TupleIndex.KeysOfWindows | ngram/ngram_lookup.py:68-71 | Each rule's keys are id-mapped n-windows of the document; a document shorter than n has none. |
| TupleIndex.ExcludingKeysSpec | interface/backend/ngram/ngram_lookup.py:118-126 | Backend keys: exactly the length-n id windows that avoid `<unk>`'s id. |
| TupleIndex.AllKeysSpec | ngram/ngram_lookup.py:66-71 | ngram/ keys: exactly the length-n id windows, including those holding `<unk>`. |
| TupleIndex.WordWindowKeysAreWindows | ngram_lookup.py:66-70 | The root engine's word-window keys equal the id windows of the mapped document. Distinct unseen words collapse onto `<unk>`. |
| TupleIndex.BuildIndexTotal | interface/backend/ngram/ngram_lookup.py:117-126 | With `<unk>` registered, every engine's build succeeds. |
| TupleIndex.BuildOrderSpec | interface/backend/ngram/ngram_lookup.py:105-129 | `build_ngrams`: it asserts the dictionary has more than one word. Only order n changes, and only when it was missing. Building twice changes nothing more. |
| TupleIndex.ProbeSpec | ngram/ngram_lookup.py:85-90 | A lookup returns the stored set, or an empty set that it inserts. No stored document set changes. |
| TupleIndex.LookupCasesSpec | interface/backend/ngram/ngram_lookup.py:172-190 | Backend `lookup`: case 0 for no words, and case 1 when a word maps to `<unk>`, before any index is read. Otherwise case 2 with the stored set, inserting an empty one when absent. |
| TupleIndex.LookupAfterBuild | ngram/ngram_lookup.py:75-90 | After building order n, a query of n words returns exactly the documents whose keys include the query's ids. |
| BackendNgramLookup.AddDocument | interface/backend/ngram/ngram_lookup.py:118-126 | One document's loop adds it under exactly its `<unk>`-free windows, or raises as the key rule does. |
| BackendNgramLookup.NgramLookup.constructor | interface/backend/ngram/ngram_lookup.py:40-48 | An empty dictionary of its own, and no order built. |
| BackendNgramLookup.NgramLookup.BuildNgrams | interface/backend/ngram/ngram_lookup.py:95-129 | The outcome and `ngrams_root` are those of `BuildOrder` under the `<unk>`-excluding rule. |
| BackendNgramLookup.NgramLookup.LoadOrBuild | interface/backend/ngram/ngram_lookup.py:83-88 | One order is loaded when stored and built otherwise. It passes exactly when that order loads or builds, and a failure carries the build's exception. An order already present and not stored is kept; no other order changes. |
| BackendNgramLookup.NgramLookup.BuildNgramDictionary | interface/backend/ngram/ngram_lookup.py:70-93 | It passes exactly when every order 1..max_n loads or builds and is non-empty. On success each order holds its stored or built index. On failure the error is the first failing order's exception or the closing AssertionError. An order already present and not stored is kept, and orders outside the range are untouched. |
| BackendNgramLookup.NgramLookup.AllBuilt | interface/backend/ngram/ngram_lookup.py:91-93 | The closing test holds iff every order 1..max_n is non-empty. |
| BackendNgramLookup.NgramLookup.Lookup | interface/backend/ngram/ngram_lookup.py:158-190 | The answer and the index afterwards are those of the four-way case analysis in `TupleIndex`. |
| LineNgramLookup.AddDocument | ngram/ngram_lookup.py:65-71 | One document's loop adds it under all of its id windows. |
| LineNgramLookup.NgramLookup.constructor | ngram/ngram_lookup.py:30-41 | It keeps the given documents, ids and dictionary, with no order built. |
| LineNgramLookup.NgramLookup.BuildNgrams | ngram/ngram_lookup.py:43-73 | The outcome and `ngrams_root` are those of `BuildOrder` under the all-windows rule. |
| LineNgramLookup.NgramLookup.Lookup | ngram/ngram_lookup.py:75-90 | The stored set, or an empty set that it inserts; a KeyError for an unbuilt order. |
| RootNgramLookup.AddDocument | ngram_lookup.py:65-70 | One document's loop adds it under each word window mapped element-wise to ids. |
| RootNgramLookup.NgramLookup.constructor | ngram_lookup.py:30-41 | It keeps the given documents, ids and dictionary, with no order built. |
| RootNgramLookup.NgramLookup.BuildNgrams | ngram_lookup.py:43-72 | The outcome and `ngrams_root` are those of `BuildOrder` under the word-window rule. |
| RootNgramLookup.NgramLookup.Lookup | ngram_lookup.py:74-89 | The stored set for the query's ids, or an empty set that it inserts. The query is mapped element-wise; line 83 as written raises AttributeError (Findings, row 4). |
| TupleIndex.AsWrittenLookupFails | ngram_lookup.py:83 | `lookup` as written raises AttributeError and leaves the index unchanged, even on a built order where the element-wise lookup answers once `<unk>` is registered. |
| Packing.PackBound | sumtool/ngram/ngram_lookup.py:243-246 | A tuple of digits of MAX packs below MAX^len. |
| Packing.PackFront | sumtool/ngram/ngram_lookup.py:244-246 | The leading id carries weight MAX^(n-1), as the query loop sums it. |
| Packing.PackInjective | sumtool/ngram/ngram_lookup.py:243-246 | Two same-length tuples of digits pack to the same integer only if they are equal. |
| Packing.PackLeading | sumtool/ngram/ngram_lookup.py:154 | A full tuple packs to at least MAX^(n-1) exactly when its leading id is non-zero. |
| Packing.PackDropFirst | sumtool/ngram/ngram_lookup.py:151 | `start % MAX ** (n - 1)` drops the leading id of a full window. |
| Packing.PackQuery | sumtool/ngram/ngram_lookup.py:243-246 | The query loop computes the same integer as the Horner packing the builders use. |
| IntKey.Digits | sumtool/ngram/ngram_lookup.py:67 | `len(str(x))` is at least one. |
| IntKey.DigitsBounds | sumtool/ngram/ngram_lookup.py:67 | 10^(digits-1) <= x < 10^digits. |
| IntKey.PyMod | sumtool/ngram/ngram_lookup.py:68 | Python's `%` takes the sign of the divisor: with a negative divisor the remainder lies in (b, 0]. |
| IntKey.GenerateIntKeyIsPowerOfTen | sumtool/ngram/ngram_lookup.py:62-69 | For positive x the key is 10^(digits of x), strictly above x and at most 10x. |
| IntKey.GenerateIntKeyBart | sumtool/ngram/summary_ngram_lookup.py:37-38 | 50265 gives 100000. |
| IntKey.GenerateIntKeyInjective | sumtool/ngram/summary_ngram_lookup.py:38-47 | With the generated key, any two same-length id sequences of the vocabulary pack injectively. |
| IntKey.RoundHalfEvenNearest | sumtool/ngram/ngram_summary_lookup.py:37 | `round(x, -5)` lands on a multiple of 100000 at most half a unit away, and picks the even multiple on a tie. |
| PackedIndex.RunLenAvoids | sumtool/ngram/ngram_lookup.py:147-149 | The run since the last `<unk>` is at least m long exactly when the last m ids avoid `<unk>`. |
| PackedIndex.StartIsPack | sumtool/ngram/ngram_lookup.py:145-152 | With every id a digit of MAX, `start` is the packing of the last min(k, n) ids read since the last `<unk>` or the document start. |
| PackedIndex.StepRecords | sumtool/ngram/ngram_lookup.py:147-163 | A key is recorded after an id exactly when the last n ids avoid `<unk>` and have a non-zero leading id. The key is their packing. |
| PackedIndex.RecordedWindows | sumtool/ngram/summary_ngram_lookup.py:98-116 | The recorded keys are, in order, the packings of the n-windows that avoid `<unk>` and have a non-zero leading id. |
| PackedIndex.PackedWindowsMembers | sumtool/ngram/summary_ngram_lookup.py:98-116 | Membership in that reference list. |
| PackedIndex.DocKeysMembers | sumtool/ngram/ngram_summary_lookup.py:92-110 | With every id a digit of MAX, a document's keys are exactly those packings, and no exception is raised. |
| PackedIndex.ZeroRadixFails | sumtool/ngram/ngram_summary_lookup.py:37 | When MAX^(n-1) is 0, any id other than `<unk>` raises ZeroDivisionError. |
| PackedIndex.AlignedDense | sumtool/ngram/ngram_lookup.py:159-163 | When the structures are aligned, the positions are exactly 0..len(doc_table)-1. |
| PackedIndex.Record | sumtool/ngram/ngram_lookup.py:159-163 | One recorded key keeps the structures aligned. The table gains d under the key, and nothing else changes. |
| PackedIndex.AddDocument | sumtool/ngram/ngram_lookup.py:145-163 | The inner loop adds the document under exactly its recorded keys, or raises ZeroDivisionError when MAX^(n-1) = 0. |
| PackedIndex.ReadId | sumtool/ngram/ngram_lookup.py:146-163 | One pass of the inner loop keeps the rolling key and the table in step with the reference. |
| PackedIndex.BuildRows | sumtool/ngram/summary_ngram_lookup.py:95-137 | The document loop stores the table that the fold of each document's keys gives. |
| PackedIndex.LookupIdsCases | sumtool/ngram/ngram_lookup.py:232-257 | Each lookup falls in exactly one case, decided in the source's order. |
| PackedIndex.LookupAfterBuild | sumtool/ngram/ngram_lookup.py:243-257 | A query of n digits with no `<unk>` and a non-zero leading id is case 3 exactly when some document holds it, and the match is those documents. Otherwise it is case 2 with no match. |
| PackedIndex.SameKeySameWindow | sumtool/ngram/summary_ngram_lookup.py:193-198 | Two n-windows of digits with the same key are the same window. |
| SumtoolNgramLookup.BuildOrderMembers | sumtool/ngram/ngram_lookup.py:117-184 | With `<unk>` registered and every id a digit of MAX, the build passes. d is stored under k iff k packs an n-window of d's ids that avoids id 0 and has a non-zero leading id. |
| SumtoolNgramLookup.IdxOfAllErr | sumtool/ngram/ngram_lookup.py:236 | The only exception a word lookup raises is KeyError, for an unseen word when `<unk>` is missing. |
| SumtoolNgramLookup.LookupWordsCases | sumtool/ngram/ngram_lookup.py:216-257 | Every call ends in exactly one case or raises, in the source's order. |
| SumtoolNgramLookup.NgramLookup.constructor | sumtool/ngram/ngram_lookup.py:48-60 | An empty dictionary of its own, no order built, and MAX as given (the corrected half of Findings, row 5). |
| SumtoolNgramLookup.AsWrittenConstructionFails | sumtool/ngram/ngram_lookup.py:60 | Computing MAX as written raises AttributeError, because `tokenizer` is not among the attributes set before line 60. With a tokenizer set, a positive vocabulary size would give a key. |
| SumtoolNgramLookup.NgramLookup.BuildDictionary | sumtool/ngram/ngram_lookup.py:71-89 | An existing vocabulary file is loaded as it is, never capped. Otherwise the dictionary is built from the corpus and then capped. |
| SumtoolNgramLookup.NgramLookup.BuildNgrams | sumtool/ngram/ngram_lookup.py:117-184 | The outcome and `ngrams_root` are those of `BuildOrder`. It asserts the dictionary has more than one word and skips an order already built. |
| SumtoolNgramLookup.NgramLookup.LoadOrBuild | sumtool/ngram/ngram_lookup.py:105-110 | One order is loaded when stored and built otherwise. It passes exactly when that order loads or builds, and a failure carries the build's exception. No other order changes. |
| SumtoolNgramLookup.NgramLookup.BuildNgramDictionary | sumtool/ngram/ngram_lookup.py:91-115 | It passes exactly when every order min_n..max_n loads or builds and is non-empty. On success each order holds its stored or built table. On failure the error is the first failing order's exception or the closing AssertionError. An order already present and not stored is kept, and orders outside the range are untouched. |
| SumtoolNgramLookup.NgramLookup.AllBuilt | sumtool/ngram/ngram_lookup.py:112-115 | The closing test holds iff every order in the range is non-empty. |
| SumtoolNgramLookup.NgramLookup.Lookup | sumtool/ngram/ngram_lookup.py:216-257 | The answer is `LookupWords`: the four cases, plus the KeyErrors of the source. |
| SummaryIndex.BuildOrderMembers | sumtool/ngram/summary_ngram_lookup.py:75-137 | With every id a digit of MAX, a new order builds without error. d is stored under k iff k packs an n-window of d's ids that avoids `<unk>` and has a non-zero leading id. |
| SummaryIndex.BuildOrderZeroRadix | sumtool/ngram/ngram_summary_lookup.py:92-110 | With MAX = 0 and n >= 2, one id other than `<unk>` makes the build raise ZeroDivisionError, and no order is stored. |
| SummaryIndex.LeadingZeroNeverFound | sumtool/ngram/summary_ngram_lookup.py:107-109 | A query whose leading id is 0 is never found, even when a document holds it. |
| SummaryIndex.LookupQuery | sumtool/ngram/summary_ngram_lookup.py:169-208 | The query's packed key is looked up in one table, with the four cases. |
| SummaryIndex.LookupWindows | sumtool/ngram/summary_ngram_lookup.py:230-241 | One entry per window, in order, each carrying its window and that window's lookup. |
| SummaryIndex.DocumentRowCases | sumtool/ngram/summary_ngram_lookup.py:279-309 | `<unk>` wins whatever the document holds. Otherwise it is case 3 exactly when the window occurs in the document, and the count is its number of occurrences. |
| SummaryIndex.MultisetCount | sumtool/ngram/summary_ngram_lookup.py:268-272 | How often x occurs in s equals the number of positions holding x. |
| SummaryIndex.Tally | sumtool/ngram/summary_ngram_lookup.py:263-272 | The counting loop: every window seen is a key, and its value is how many times it was seen. |
| SummaryIndex.CountWindows | sumtool/ngram/summary_ngram_lookup.py:263-272 | The keys are the document's n-windows, and each count is that window's number of occurrences. |
| SummaryIndex.LookupCounts | sumtool/ngram/summary_ngram_lookup.py:276-309 | One row per summary window, in order, each the document row of that window. |
| SummaryNgramLookup.SummaryNgramLookup.constructor | sumtool/ngram/summary_ngram_lookup.py:24-38 | No order built, and MAX strictly above every id of the vocabulary. |
| SummaryNgramLookup.SummaryNgramLookup.BuildNgrams | sumtool/ngram/summary_ngram_lookup.py:75-137 | The outcome and `ngrams_root` are those of `BuildOrder` on the encoded documents. |
| SummaryNgramLookup.SummaryNgramLookup.LoadOrBuild | sumtool/ngram/summary_ngram_lookup.py:63-68 | One order is loaded when stored and built otherwise. It passes exactly when that order loads or builds, and a failure carries the build's exception. No other order changes. |
| SummaryNgramLookup.SummaryNgramLookup.BuildNgramDictionary | sumtool/ngram/summary_ngram_lookup.py:49-73 | It passes exactly when every order min_n..max_n loads or builds and is non-empty. On success each order holds its stored or built table. On failure the error is the first failing order's exception or the closing AssertionError. An order already present and not stored is kept, and orders outside the range are untouched. |
| SummaryNgramLookup.SummaryNgramLookup.AllBuilt | sumtool/ngram/summary_ngram_lookup.py:70-73 | The closing test holds iff every order in the range is non-empty. |
| SummaryNgramLookup.SummaryNgramLookup.Lookup | sumtool/ngram/summary_ngram_lookup.py:169-208 | `lookup(query_idx, ngram_df)` gives the four `LookupCase` answers. |
| SummaryNgramLookup.SummaryNgramLookup.LookupSummaryFromDataset | sumtool/ngram/summary_ngram_lookup.py:210-241 | A KeyError for an unbuilt order. Otherwise one entry per n-window of the encoded summary, in order. |
| SummaryNgramLookup.SummaryNgramLookup.LookupSummaryFromDocument | sumtool/ngram/summary_ngram_lookup.py:243-309 | One row per n-window of the encoded summary, counted against the n-windows of the encoded document. |
| NgramSummaryLookup.NgramSummaryLookup.constructor | sumtool/ngram/ngram_summary_lookup.py:24-37 | No order built; MAX is the vocabulary size rounded half-to-even to a multiple of 100000. |
| NgramSummaryLookup.NgramSummaryLookup.BuildNgrams | sumtool/ngram/ngram_summary_lookup.py:65-131 | The outcome and `ngrams_root` are those of `BuildOrder` with the rounded MAX. |
| NgramSummaryLookup.NgramSummaryLookup.LoadOrBuild | sumtool/ngram/ngram_summary_lookup.py:53-58 | One order is loaded when stored and built otherwise. It passes exactly when that order loads or builds, and a failure carries the build's exception. No other order changes. |
| NgramSummaryLookup.NgramSummaryLookup.BuildNgramDictionary | sumtool/ngram/ngram_summary_lookup.py:39-63 | It passes exactly when every order min_n..max_n loads or builds and is non-empty. On success each order holds its stored or built table. On failure the error is the first failing order's exception or the closing AssertionError. An order already present and not stored is kept, and orders outside the range are untouched. |
| NgramSummaryLookup.NgramSummaryLookup.AllBuilt | sumtool/ngram/ngram_summary_lookup.py:60-63 | The closing test holds iff every order in the range is non-empty. |
| NgramSummaryLookup.NgramSummaryLookup.Lookup | sumtool/ngram/ngram_summary_lookup.py:163-199 | Integer cases 0-3 under the same conditions as the `LookupCase` version. |
| NgramSummaryLookup.NgramSummaryLookup.LookupSummaryFromDataset | sumtool/ngram/ngram_summary_lookup.py:201-229 | A KeyError for an unbuilt order. Otherwise one entry per bigram of the encoded summary, whatever n is. |
| NgramSummaryLookup.NgramSummaryLookup.LookupSummaryFromDocument | sumtool/ngram/ngram_summary_lookup.py:231-283 | One row per summary bigram, counted against the document's bigrams; n is unused. |
| Trie.FreqIsLastNode | trie.py:44-61 | The frequency is the end node's count, and it is 0 exactly where `get_ngram_last_node` finds no node. |
| Trie.PathsAreFound | trie.py:155-173 | A path is in the trie exactly when `get_ngram_last_node` finds a node for it. |
| Trie.InsertFreq | trie.py:25-42 | After `add_ngram(g)`, every prefix count of g rises by one, the empty prefix included. No other count changes. |
| Trie.InsertLastNode | trie.py:38-42 | `add_ngram(g)` creates the nodes on g's path and no others. |
| Trie.PrefixCountMember | trie.py:35-42 | An added n-gram is counted under each of its prefixes. |
| Trie.PrefixCountWitness | trie.py:35-42 | A positive count names an added n-gram that starts with the prefix. |
| Trie.PrefixCountShrinks | trie.py:35-42 | A longer prefix is shared by no more n-grams than a shorter one. |
| Trie.Depth | trie.py:145-153 | `get_depth` of a node is 0 for a leaf, and otherwise the length of its longest path. |
| Trie.Trie.constructor | trie.py:21-23 | A root without children and with count 0, with no n-gram added. |
| Trie.Trie.AddNgram | trie.py:25-42 | g is recorded. Each prefix count of g rises by one and the root count by one; nothing else changes. |
| Trie.Trie.GetNgramFreq | trie.py:44-61 | The number of added n-grams starting with g. At the root that is the number of `add_ngram` calls. |
| Trie.Trie.GetNgramLastNode | trie.py:155-173 | A node exactly when some added n-gram starts with g, and its count is that number. |
| Trie.Trie.ChildFreqBounded | trie.py:35-42 | A child never counts more than its parent. |
| Trie.Trie.GetDepth | trie.py:145-153 | The length of the longest added n-gram. |
| Trie.Trie.Bfs | trie.py:90-128 | Exactly the length-n paths of the trie, each with its end node's count. |
| Trie.Visit | trie.py:111-126 | One round of the queue loop keeps the queues consistent and the result equal to the recorded paths. |
| Trie.EnqueueChildren | trie.py:122-126 | Each child of the dequeued node is queued with its path. |
| Annotations.Locate | interface/utils/faithfulness_annotations.py:8-18 | The two scans find the chunk holding n_start and the chunk holding n_end, with their start offsets. |
| Annotations.SplitKeeps | interface/utils/faithfulness_annotations.py:24-30 | Cutting a chunk changes neither the text nor any character's labels. |
| Annotations.TagLaw | interface/utils/faithfulness_annotations.py:31 | Adding a label to chunk i moves no chunk and labels exactly chunk i's characters. |
| Annotations.Cut | interface/utils/faithfulness_annotations.py:39-41 | Inserting a copy and cutting both copies keeps the text and every character's labels. |
| Annotations.TagWithin | interface/utils/faithfulness_annotations.py:22-31 | A range inside one chunk: exactly [n_start, n_end) gains the label. |
| Annotations.TagBeginWhole | interface/utils/faithfulness_annotations.py:35-36 | The beginning chunk is labelled whole, from n_start. |
| Annotations.TagBeginCut | interface/utils/faithfulness_annotations.py:37-44 | The beginning chunk is cut at n_start, and only the second piece is labelled. |
| Annotations.TagMiddle | interface/utils/faithfulness_annotations.py:46-47 | Every intermediate chunk is labelled whole, and the labelled range grows over them. |
| Annotations.TagFront | interface/utils/faithfulness_annotations.py:35-47 | The beginning and intermediate chunks: the range from n_start is labelled up to the chunk before the end chunk. |
| Annotations.TagEndAsWritten | interface/utils/faithfulness_annotations.py:49-59 | The end chunk as written: the labelled range stops at `AsWrittenStop`. |
| Annotations.TagEnd | interface/utils/faithfulness_annotations.py:49-59 | The end chunk as intended: the labelled range reaches n_end. |
| Annotations.DropEmptyKeeps | interface/utils/faithfulness_annotations.py:61 | Dropping empty chunks keeps the text and every character's labels, and leaves no empty chunk. |
| Annotations.OverlapAsWritten | interface/utils/faithfulness_annotations.py:5-62 | ValueError when n_start > n_end. Otherwise the text is unchanged, no chunk is empty, and exactly [n_start, AsWrittenStop) gains the label, which may stop short of n_end. |
| Annotations.Overlap | interface/faithfulness_interface.py:12-67 | The corrected overlap: ValueError when n_start > n_end. Otherwise the text is unchanged, no chunk is empty, and exactly the characters of [n_start, n_end) gain the label. |
| Annotations.EndChunkLeftUntagged | interface/utils/faithfulness_annotations.py:49 | For `[["a", {}], ["bcd", {}]]` with range [0, 2), the as-written result leaves "b" without the label. |
| Annotations.Merge | interface/utils/faithfulness_annotations.py:66-76 | The text and every character's labels are kept, the list does not grow, and no two neighbours share a label set. An input without empty chunks gives a result without empty chunks, so the result is the list of maximal equally-labelled runs. |
| Annotations.MaximalUnique | interface/utils/faithfulness_annotations.py:66-76 | Two chunk lists with the same text and the same labels per character, no empty chunk and no equal neighbours are equal. So the merge of a list without empty chunks has exactly one possible result. |
| Annotations.Render | interface/utils/faithfulness_annotations.py:79-91 | One item per chunk, in order. A chunk with no label becomes its bare text; the others carry their caption and colour. |
| Annotations.RenderKeepsText | interface/faithfulness_interface.py:82-90 | The items' texts, in order, are exactly the annotated text. |

## Left out

- **sumtool/ngram/dictionary.py is not part of this model.** The sumtool `NgramLookup` is
  modelled with the dictionary of interface/backend/ngram/dictionary.py. Their methods are
  the same as far as the engine uses them.
- **`SumtoolNgramLookup.NgramLookup.constructor`: MAX is a parameter.**
  - The source computes MAX from `self.tokenizer.vocab_size`, but that class never sets
    `self.tokenizer`, so construction as written fails (Findings, row 5).
  - `_generate_int_key` is proved about separately (`IntKey`).
- **`IntKey.GenerateIntKeyIsPowerOfTen`: the float branch of `_generate_int_key` is left out.**
  - That branch is `10 ** math.log(x, 10) == x`, and only the integer branch is modelled.
  - Floating point makes that test miss some exact powers of ten (1000 gives 10000).
- **Orders of n = 0 in the packed engines are left out, as are keys beyond 64 bits.**
  - With n = 0 the packed engines compute `MAX ** -1`, a float, so their builds require
    n >= 1.
  - The tables' 64-bit keys and 32-bit document indices are unbounded here.
- **`SummaryNgramLookup.SummaryNgramLookup.constructor` requires a vocabulary size of at
  least 1.** `math.log(0, 10)` raises.
- **Table and dictionary iteration order is not modelled.**
  - The pyarrow table is a map from key to document set.
  - `list(doc_table[v])` and dict iteration order are not modelled.
- **Persistence is only partly modelled.** The parquet/pickle loads become a `stored` map of
  the files that exist, and their saves (write-only) are omitted.
- **Tokenizers, dataset loading and printing are not modelled.**
  - `tokenizer.encode` is a function parameter, and the summary engines' documents are
    encoded by it.
  - `print` and `tqdm` are not modelled.
- **`NgramDictionary.Dictionary.BuildFromCorpus` takes the tokenizer as a parameter.** The
  interface/backend engine passes token lists where `build_from_corpus` calls `doc.split()`;
  the model treats each document as the text of its tokens.
- **Frequency getters that insert into the defaultdict.** `get_wrd_freq_by_idx` /
  `get_wrd_freq` (`Vocabulary.FreqOf`) read a defaultdict, which inserts a 0 entry for an
  absent id. The model reads without inserting.
- **`Text.Preprocess`: character classes stop at Latin-1.**
  - Lower-casing covers A-Z and the Latin-1 capitals.
  - Whitespace, punctuation and the control category `\p{C}` cover only Basic Latin and
    Latin-1.
  - Unicode case mapping and characters beyond Latin-1 are left out.
- **`Annotations.Overlap`: chunk lists are values, so aliasing is not modelled.**
  - The source mutates the caller's list and tag sets in place, and `annotation_merge`
    aliases the input's first chunk.
  - Offsets are natural numbers; negative `n_start`/`n_end` are left out.
- **`annotation_text`, `annotation_color` and the Streamlit rendering are left out.** They
  are floating-point averages and colour blending; `annotation_render` takes them as
  function parameters.
- **`NgramSummaryLookup.NgramSummaryLookup.LookupSummaryFromDocument` rows carry a count.** For
  cases 1 and 2 the source sets `"match"` to an empty list, and for case 3 to the bigram's
  count in the document. The model's `matchCount` is 0 for cases 1 and 2.
- **`Trie.Trie.AddNgram`: nodes are immutable values.**
  - Node identity is left out, and so is the aliasing of a node returned by
    `get_ngram_last_node`.
  - Keys are natural-number word ids.
- **`Trie.Trie.Bfs`: the order children are visited in is a choice, not Python's dict order.**
  The result map does not depend on it.
- **`Trie.Trie.ChildFreqBounded`: the children bound is pairwise only.** The bound that a
  node's count is at least the sum of its children's counts is stated for one child at a
  time, not for the sum.
- **`Trie.dfs` is left out.** Its docstring says it is not well tested, and it relies on
  list aliasing.
- **`NgramDictionary.Dictionary.LimitMaxVocabSize` computes the three new tables before
  replacing any field.** No table reads a field that an earlier step replaced, so the outcome
  and the fields at every exit are the source's.
- **`VocabCap.LimitOutcome` is stated only for corpus-built dictionaries.** It is stated for
  dictionaries whose every frequency entry belongs to a word, as after `build_from_corpus`. A
  vocabulary file that repeats a word can leave extra entries, which `VocabCap.Limit` still
  models.

## Findings

| source | as written | input that shows it | evidently intended | confidence | as-written member | corrected member |
|---|---|---|---|---|---|---|
| interface/utils/faithfulness_annotations.py:49 (and interface/faithfulness_interface.py:53) | The end test `n_end == prevend_i + len(ann[annend_i - 1][0])` adds the length of the chunk before the end chunk to the end chunk's start. | `ann = [["a", {}], ["bcd", {}]]`, range [0, 2): the test holds (2 == 1 + 1), so the end chunk is not cut and "b" stays untagged. | Cut the end chunk unless `n_end == prevend_i`, so every character of [n_start, n_end) is tagged. | high (not executed) | Annotations.OverlapAsWritten, Annotations.EndChunkLeftUntagged | Annotations.Overlap |
| ngram/dictionary.py:183 | `save_as_file` calls `self.sort_dict_by_value`, which this class does not define. | Any dictionary: the call raises AttributeError before anything is written. | Write the entries in descending-frequency order, as the backend class's `sort_dict_by_value` does. | high (not executed) | VocabFile.SaveByFreqAsWritten | VocabFile.SaveByFreq |
| sumtool/ngram/ngram_summary_lookup.py:37 | `MAX = round(vocab_size, -5)` is right for 50265 but not in general. | vocab_size 30522 gives MAX = 0, and any n >= 2 build raises ZeroDivisionError. 149999 gives 100000, so the ids (1, 100000) and (2, 0) share the key 200000. | A radix above every id, as `_generate_int_key` computes. | high (not executed) | IntKey.RoundedKeyTooSmall, NgramSummaryLookup.SmallVocabularyBuildFails | IntKey.GenerateIntKeyIsPowerOfTen |
| ngram_lookup.py:69 (and ngram_lookup.py:83) | `build_ngrams` and `lookup` call `get_idx_by_wrd_multiple`, which the Dictionary of dictionary.py lacks. | A root Dictionary and any document with n words or more: AttributeError from `build_ngrams`. Any query: AttributeError from `lookup`. | Element-wise `get_idx_by_wrd` over the window and over the query. | medium (not executed; a caller could pass another Dictionary class) | TupleIndex.AsWrittenBuildFails, TupleIndex.AsWrittenLookupFails | RootNgramLookup.NgramLookup.BuildNgrams, RootNgramLookup.NgramLookup.Lookup |
| sumtool/ngram/ngram_lookup.py:60 | `self.MAX = self._generate_int_key(self.tokenizer.vocab_size)` reads `self.tokenizer`, which no line of the class sets. | Any documents: `NgramLookup(documents)` raises AttributeError. | MAX generated from the vocabulary size of a tokenizer the caller supplies. | high (not executed) | SumtoolNgramLookup.AsWrittenConstructionFails | SumtoolNgramLookup.NgramLookup.constructor, IntKey.GenerateIntKeyInjective |
