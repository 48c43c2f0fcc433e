/** The tuple-keyed n-gram index shared by interface/backend/ngram/ngram_lookup.py,
    ngram/ngram_lookup.py and ngram_lookup.py: one `defaultdict(set)` per order n, from an
    id tuple to the indices of the documents that contain it. The three engines differ only
    in the key list they derive from one document; the index over a corpus is the same fold
    for all of them. */
module TupleIndex {
  import opened Common
  import opened Vocabulary
  import opened DocIndex

  /** One order of `ngrams_root`: id tuple to document indices. */
  type Index = map<seq<nat>, set<nat>>

  /** How an engine derives a document's keys from its words. */
  datatype Rule =
    | ExcludeUnkWindows   // interface/backend/ngram/ngram_lookup.py
    | AllWindows          // ngram/ngram_lookup.py
    | WordWindows         // ngram_lookup.py, with element-wise word lookup
    | WordWindowsAsWritten  // ngram_lookup.py as written, calling a method its Dictionary lacks

  /** One document's keys under a rule, or the exception raised while computing them. */
  function KeysOf(rule: Rule, v: Vocab, n: nat, words: seq<string>): Result<seq<seq<nat>>>
  {
    match rule
    case ExcludeUnkWindows => ExcludingKeys(v, n, words)
    case AllWindows => AllKeys(v, n, words)
    case WordWindows => WordWindowKeys(v, n, words)
    case WordWindowsAsWritten => if Windows(words, n) == [] then Ok([]) else Err(AttributeError)
  }

  /** A rule as a function of the document's words. */
  function KeyFn(rule: Rule, v: Vocab, n: nat): seq<string> -> Result<seq<seq<nat>>>
  {
    words => KeysOf(rule, v, n, words)
  }

  /** `build_ngrams(n)` of an engine over its documents' words. */
  function BuildIndex(rule: Rule, v: Vocab, n: nat, docs: seq<seq<string>>): Result<Index>
  {
    Build(docs, KeyFn(rule, v, n))
  }

  /** Index membership for an engine's rule. */
  lemma BuildIndexMembers(rule: Rule, v: Vocab, n: nat, docs: seq<seq<string>>, k: seq<nat>, d: nat)
    requires BuildIndex(rule, v, n, docs).Ok?
    ensures forall e :: 0 <= e < |docs| ==> KeysOf(rule, v, n, docs[e]).Ok?
    ensures k in BuildIndex(rule, v, n, docs).value <==>
      exists e :: 0 <= e < |docs| && k in KeysOf(rule, v, n, docs[e]).value
    ensures k in BuildIndex(rule, v, n, docs).value ==>
      (d in BuildIndex(rule, v, n, docs).value[k] <==> d < |docs| && k in KeysOf(rule, v, n, docs[d]).value)
  {
    BuildMembers(docs, KeyFn(rule, v, n), k, d);
  }

  /** Every key of a built index has length n: the keys of every rule are n-windows. */
  lemma KeyLengths(rule: Rule, v: Vocab, n: nat, docs: seq<seq<string>>)
    requires BuildIndex(rule, v, n, docs).Ok?
    ensures forall k :: k in BuildIndex(rule, v, n, docs).value ==> |k| == n && n > 0
  {
    forall k | k in BuildIndex(rule, v, n, docs).value
      ensures |k| == n && n > 0
    {
      BuildIndexMembers(rule, v, n, docs, k, 0);
      var e :| 0 <= e < |docs| && k in KeysOf(rule, v, n, docs[e]).value;
      KeysOfWindows(rule, v, n, docs[e], k);
    }
  }

  /** Each rule's keys are windows of length n of the document, mapped to ids. A document of
      fewer than n words has none. */
  lemma KeysOfWindows(rule: Rule, v: Vocab, n: nat, words: seq<string>, k: seq<nat>)
    requires KeysOf(rule, v, n, words).Ok? && k in KeysOf(rule, v, n, words).value
    ensures |k| == n && n > 0 && |words| >= n
  {
    match rule
    case ExcludeUnkWindows =>
      ExcludingKeysSpec(v, n, words, k);
    case AllWindows =>
      AllKeysSpec(v, n, words, k);
    case WordWindows =>
      var ws := Windows(words, n);
      var r := IdsOfWindows(v, ws);
      var i :| 0 <= i < |r.value| && r.value[i] == k;
      IdsOfWindowsAt(v, ws, i);
    case WordWindowsAsWritten =>
  }

  lemma {:induction false} IdsOfWindowsAt(v: Vocab, ws: seq<seq<string>>, i: nat)
    requires IdsOfWindows(v, ws).Ok? && i < |ws|
    ensures IdxOfAll(v, ws[i]) == Ok(IdsOfWindows(v, ws).value[i])
  {
    var last := |ws| - 1;
    if i < last {
      IdsOfWindowsAt(v, ws[..last], i);
    }
  }

  /** `self.ngrams_root[n][key]`: a KeyError for an order that was never built; otherwise the
      stored set, and for a missing key the `defaultdict` inserts and returns an empty set. */
  function Probe(root: map<nat, Index>, n: nat, key: seq<nat>): (Result<set<nat>>, map<nat, Index>)
  {
    if n !in root then (Err(KeyError), root)
    else if key in root[n] then (Ok(root[n][key]), root)
    else (Ok({}), root[n := root[n][key := {}]])
  }

  /** What a lookup may do to the index: add empty entries, nothing else. */
  ghost predicate OnlyEmptyAdded(root: map<nat, Index>, root': map<nat, Index>)
  {
    && root'.Keys == root.Keys
    && (forall m :: m in root ==> root[m].Keys <= root'[m].Keys)
    && (forall m, k :: m in root && k in root[m] ==> root'[m][k] == root[m][k])
    && (forall m, k :: m in root && k in root'[m] && k !in root[m] ==> root'[m][k] == {})
  }

  /** A probe returns the stored set, or the empty set when the key is absent, and leaves the
      document sets of the index as they were. */
  lemma ProbeSpec(root: map<nat, Index>, n: nat, key: seq<nat>)
    ensures Probe(root, n, key).0.Ok? <==> n in root
    ensures n in root ==> Probe(root, n, key).0.value == if key in root[n] then root[n][key] else {}
    ensures n in root ==> key in Probe(root, n, key).1[n]
    ensures OnlyEmptyAdded(root, Probe(root, n, key).1)
  {
  }

  /** `lookup` of interface/backend/ngram/ngram_lookup.py, with the index it leaves behind:
      case 0 for an empty query, case 1 when a query word maps to `<unk>` (before the index is
      read), case 2 with the stored documents otherwise. */
  function LookupCases(root: map<nat, Index>, v: Vocab, query: seq<string>): (Result<Answer>, map<nat, Index>)
  {
    if |query| == 0 then (Ok(Answer(0, {})), root)
    else
      match IdxOfAll(v, query)
      case Err(e) => (Err(e), root)
      case Ok(ids) =>
        match UnkIdx(v)
        case Err(e) => (Err(e), root)
        case Ok(u) =>
          if u in ids then (Ok(Answer(1, {})), root)
          else
            var (r, root') := Probe(root, |query|, ids);
            match r
            case Err(e) => (Err(e), root')
            case Ok(m) => (Ok(Answer(2, m)), root')
  }

  /** `lookup` of ngram/ngram_lookup.py and ngram_lookup.py: the stored documents of the
      query's id tuple. */
  function LookupSet(root: map<nat, Index>, v: Vocab, query: seq<string>): (Result<set<nat>>, map<nat, Index>)
  {
    match IdxOfAll(v, query)
    case Err(e) => (Err(e), root)
    case Ok(ids) => Probe(root, |query|, ids)
  }

  /** The cases of the backend `lookup`. */
  lemma LookupCasesSpec(root: map<nat, Index>, v: Vocab, query: seq<string>)
    ensures var (r, root') := LookupCases(root, v, query);
      && OnlyEmptyAdded(root, root')
      && (|query| == 0 <==> r == Ok(Answer(0, {})))
      && (|query| > 0 && IdxOfAll(v, query).Ok? && Unk in v.wrdToIdx ==>
            (r == Ok(Answer(1, {})) <==> v.wrdToIdx[Unk] in IdxOfAll(v, query).value))
      && (r.Ok? && r.value.kind == 2 ==>
            var ids := IdxOfAll(v, query).value;
            |query| in root && Unk in v.wrdToIdx && v.wrdToIdx[Unk] !in ids
            && r.value.matched == if ids in root[|query|] then root[|query|][ids] else {})
      && (r.Ok? ==> r.value.kind <= 2)
      && (r.Err? <==> (|query| > 0 && (IdxOfAll(v, query).Err? || Unk !in v.wrdToIdx ||
            (v.wrdToIdx[Unk] !in IdxOfAll(v, query).value && |query| !in root))))
  {
    if |query| > 0 && IdxOfAll(v, query).Ok? && Unk in v.wrdToIdx {
      ProbeSpec(root, |query|, IdxOfAll(v, query).value);
    }
  }

  /** Looking up a query of n words after order n was built returns exactly the documents
      whose keys include the query's ids. */
  lemma LookupAfterBuild(rule: Rule, v: Vocab, n: nat, docs: seq<seq<string>>, root: map<nat, Index>,
                         query: seq<string>, d: nat)
    requires |query| == n && n in root && BuildIndex(rule, v, n, docs) == Ok(root[n])
    requires IdxOfAll(v, query).Ok?
    ensures LookupSet(root, v, query).0.Ok?
    ensures d in LookupSet(root, v, query).0.value <==>
      d < |docs| && KeysOf(rule, v, n, docs[d]).Ok? && IdxOfAll(v, query).value in KeysOf(rule, v, n, docs[d]).value
  {
    BuildIndexMembers(rule, v, n, docs, IdxOfAll(v, query).value, d);
  }

  /** The windows of ws that do not contain the id u, in order. */
  function ExcludeUnk(ws: seq<seq<nat>>, u: nat): (r: seq<seq<nat>>)
    ensures forall k :: k in r <==> k in ws && u !in k
  {
    if ws == [] then []
    else
      var init := ExcludeUnk(ws[..|ws| - 1], u);
      var k := ws[|ws| - 1];
      assert ws == ws[..|ws| - 1] + [k];
      if u in k then init else init + [k]
  }

  /** One more window. */
  lemma ExcludeUnkSnoc(ws: seq<seq<nat>>, j: nat, u: nat)
    requires j < |ws|
    ensures ExcludeUnk(ws[..j + 1], u) == ExcludeUnk(ws[..j], u) + (if u in ws[j] then [] else [ws[j]])
  {
    assert ws[..j + 1][..j] == ws[..j];
  }

  /** The document's words as ids: `[get_idx_by_wrd(word) for word in doc]`. */
  function DocIds(v: Vocab, words: seq<string>): Result<seq<nat>>
  {
    IdxOfAll(v, words)
  }

  /** Keys of one document in interface/backend/ngram/ngram_lookup.py: its id windows without
      those containing the `<unk>` id. The `<unk>` id is looked up once per window, so a
      dictionary without `<unk>` fails as soon as there is a window. */
  function ExcludingKeys(v: Vocab, n: nat, words: seq<string>): Result<seq<seq<nat>>>
  {
    match DocIds(v, words)
    case Err(e) => Err(e)
    case Ok(ids) =>
      var ws := Windows(ids, n);
      if ws == [] then Ok([])
      else
        match UnkIdx(v)
        case Err(e) => Err(e)
        case Ok(u) => Ok(ExcludeUnk(ws, u))
  }

  /** Keys of one document in ngram/ngram_lookup.py: every id window, `<unk>` included. */
  function AllKeys(v: Vocab, n: nat, words: seq<string>): Result<seq<seq<nat>>>
  {
    match DocIds(v, words)
    case Err(e) => Err(e)
    case Ok(ids) => Ok(Windows(ids, n))
  }

  /** Keys of one document in ngram_lookup.py: each window of words, mapped to ids. */
  function WordWindowKeys(v: Vocab, n: nat, words: seq<string>): Result<seq<seq<nat>>>
  {
    IdsOfWindows(v, Windows(words, n))
  }

  function IdsOfWindows(v: Vocab, ws: seq<seq<string>>): (r: Result<seq<seq<nat>>>)
    ensures r.Ok? ==> |r.value| == |ws|
  {
    if ws == [] then Ok([])
    else
      match IdsOfWindows(v, ws[..|ws| - 1])
      case Err(e) => Err(e)
      case Ok(init) =>
        match IdxOfAll(v, ws[|ws| - 1])
        case Err(e) => Err(e)
        case Ok(k) => Ok(init + [k])
  }

  /** One more window of words. */
  lemma IdsOfWindowsSnoc(v: Vocab, ws: seq<seq<string>>, j: nat)
    requires j < |ws|
    ensures IdsOfWindows(v, ws[..j + 1]) ==
      match IdsOfWindows(v, ws[..j])
      case Err(e) => Err(e)
      case Ok(init) =>
        match IdxOfAll(v, ws[j])
        case Err(e) => Err(e)
        case Ok(k) => Ok(init + [k])
  {
    assert ws[..j + 1][..j] == ws[..j];
  }

  /** Once a window fails, mapping all windows fails with the same exception. */
  lemma {:induction false} IdsOfWindowsErr(v: Vocab, ws: seq<seq<string>>, m: nat, e: Error)
    requires m <= |ws| && IdsOfWindows(v, ws[..m]) == Err(e)
    ensures IdsOfWindows(v, ws) == Err(e)
    decreases |ws| - m
  {
    if m == |ws| {
      assert ws[..m] == ws;
    } else {
      IdsOfWindowsSnoc(v, ws, m);
      IdsOfWindowsErr(v, ws, m + 1, e);
    }
  }

  /** Backend keys: document d's keys are exactly its length-n id windows that avoid the
      `<unk>` id. */
  lemma ExcludingKeysSpec(v: Vocab, n: nat, words: seq<string>, k: seq<nat>)
    requires ExcludingKeys(v, n, words).Ok?
    ensures DocIds(v, words).Ok?
    ensures k in ExcludingKeys(v, n, words).value <==>
      n > 0 && |k| == n && OccursIn(k, DocIds(v, words).value) && Unk in v.wrdToIdx && v.wrdToIdx[Unk] !in k
  {
    var ids := DocIds(v, words).value;
    WindowsMembership(ids, n, k);
  }

  /** ngram/ keys: exactly the length-n id windows. */
  lemma AllKeysSpec(v: Vocab, n: nat, words: seq<string>, k: seq<nat>)
    requires AllKeys(v, n, words).Ok?
    ensures DocIds(v, words).Ok?
    ensures k in AllKeys(v, n, words).value <==> n > 0 && |k| == n && OccursIn(k, DocIds(v, words).value)
  {
    WindowsMembership(DocIds(v, words).value, n, k);
  }

  /** Mapping each window of words is the same as taking windows of the mapped words: the
      keys of ngram_lookup.py are those of ngram/ngram_lookup.py whenever the whole document
      can be mapped. */
  lemma {:induction false} WordWindowKeysAreWindows(v: Vocab, n: nat, words: seq<string>)
    requires DocIds(v, words).Ok?
    ensures WordWindowKeys(v, n, words) == Ok(Windows(DocIds(v, words).value, n))
  {
    var ids := DocIds(v, words).value;
    var ws := Windows(words, n);
    var ks := Windows(ids, n);
    assert |ws| == |ks|;
    forall i | 0 <= i < |ws|
      ensures IdxOfAll(v, ws[i]) == Ok(ks[i])
    {
      assert ws[i] == words[i..i + n] && ks[i] == ids[i..i + n];
      WindowIds(v, words, ids, i, n);
    }
    IdsOfWindowsPrefix(v, ws, ks, |ws|);
    assert ws[..|ws|] == ws && ks[..|ks|] == ks;
  }

  /** A window of a mappable document maps to the same window of its ids. */
  lemma WindowIds(v: Vocab, words: seq<string>, ids: seq<nat>, i: nat, n: nat)
    requires IdxOfAll(v, words) == Ok(ids) && i + n <= |words|
    ensures IdxOfAll(v, words[i..i + n]) == Ok(ids[i..i + n])
  {
    var w := words[i..i + n];
    assert forall j :: 0 <= j < |w| ==> IdxOf(v, w[j]) == Ok(ids[i + j]);
    var r := IdxOfAll(v, w);
    assert r.Ok?;
    assert r.value == ids[i..i + n];
  }

  lemma {:induction false} IdsOfWindowsPrefix(v: Vocab, ws: seq<seq<string>>, ks: seq<seq<nat>>, m: nat)
    requires m <= |ws| == |ks|
    requires forall i :: 0 <= i < |ws| ==> IdxOfAll(v, ws[i]) == Ok(ks[i])
    ensures IdsOfWindows(v, ws[..m]) == Ok(ks[..m])
  {
    if m > 0 {
      IdsOfWindowsPrefix(v, ws, ks, m - 1);
      assert ws[..m][..m - 1] == ws[..m - 1];
      assert ks[..m] == ks[..m - 1] + [ks[m - 1]];
    }
  }

  /** `build_ngrams(n)`: assert the dictionary holds more than one word, keep an order that is
      already built, else build it and store it under n. An exception leaves `ngrams_root`
      as it was. */
  function BuildOrder(root: map<nat, Index>, rule: Rule, v: Vocab, n: nat, docs: seq<seq<string>>): (Outcome, map<nat, Index>)
  {
    if v.idx == 1 then (Fail(AssertionError("Build dictionary first")), root)
    else if n in root then (Pass, root)
    else
      match BuildIndex(rule, v, n, docs)
      case Err(e) => (Fail(e), root)
      case Ok(ix) => (Pass, root[n := ix])
  }

  /** What `build_ngrams` does to `ngrams_root`: at most order n changes, only when it was
      missing, and only to the index of the documents; building twice changes nothing more. */
  lemma BuildOrderSpec(root: map<nat, Index>, rule: Rule, v: Vocab, n: nat, docs: seq<seq<string>>)
    ensures var (outcome, root') := BuildOrder(root, rule, v, n, docs);
      && (outcome == Pass <==> v.idx != 1 && (n in root || BuildIndex(rule, v, n, docs).Ok?))
      && (outcome == Pass ==> n in root')
      && (outcome == Pass && n !in root ==> root'[n] == BuildIndex(rule, v, n, docs).value)
      && (forall m :: m != n ==> (m in root' <==> m in root) && (m in root ==> root'[m] == root[m]))
      && (n in root ==> root' == root)
      && (outcome == Pass ==> BuildOrder(root', rule, v, n, docs) == (Pass, root'))
  {
  }

  /** What `build_ngram_dictionary` leaves under order m, or the exception it raises there:
      the stored file when one exists (`load_ngram_dict`), otherwise what `build_ngrams(m)`
      keeps or builds. */
  function LoadedOrder(root: map<nat, Index>, stored: map<nat, Index>, rule: Rule, v: Vocab, m: nat,
                       docs: seq<seq<string>>): Result<Index>
  {
    if m in stored then Ok(stored[m])
    else if v.idx == 1 then Err(AssertionError("Build dictionary first"))
    else if m in root then Ok(root[m])
    else BuildIndex(rule, v, m, docs)
  }

  /** With `<unk>` registered every word has an id, so every correct rule builds. */
  lemma {:induction false} BuildIndexTotal(rule: Rule, v: Vocab, n: nat, docs: seq<seq<string>>)
    requires rule != WordWindowsAsWritten && Unk in v.wrdToIdx
    ensures BuildIndex(rule, v, n, docs).Ok?
  {
    forall d | 0 <= d < |docs|
      ensures KeyFn(rule, v, n)(docs[d]).Ok?
    {
      if rule == WordWindows {
        IdsOfWindowsTotal(v, Windows(docs[d], n));
      }
    }
    BuildOk(docs, KeyFn(rule, v, n));
  }

  lemma {:induction false} IdsOfWindowsTotal(v: Vocab, ws: seq<seq<string>>)
    requires Unk in v.wrdToIdx
    ensures IdsOfWindows(v, ws).Ok?
  {
    if ws != [] {
      IdsOfWindowsTotal(v, ws[..|ws| - 1]);
    }
  }

  /** ngram_lookup.py as written: its Dictionary has no `get_idx_by_wrd_multiple`, so the first
      window of any document raises AttributeError and no order with a window can be built,
      while the element-wise lookup builds whenever `<unk>` is registered. */
  lemma AsWrittenBuildFails(v: Vocab, n: nat, docs: seq<seq<string>>, d: nat)
    requires n >= 1 && d < |docs| && |docs[d]| >= n
    ensures BuildIndex(WordWindowsAsWritten, v, n, docs) == Err(AttributeError)
    ensures Unk in v.wrdToIdx ==> BuildIndex(WordWindows, v, n, docs).Ok?
  {
    var f := KeyFn(WordWindowsAsWritten, v, n);
    assert Windows(docs[d], n) != [];
    assert f(docs[d]).Err?;
    BuildOk(docs, f);
    BuildErrOnly(docs, f, AttributeError);
    if Unk in v.wrdToIdx {
      BuildIndexTotal(WordWindows, v, n, docs);
    }
  }

  /** `lookup` of ngram_lookup.py as written: it calls the same missing
      `get_idx_by_wrd_multiple` before anything else, so every call raises AttributeError and
      leaves the index as it was. */
  function LookupSetAsWritten(root: map<nat, Index>, v: Vocab, query: seq<string>): (Result<set<nat>>, map<nat, Index>)
  {
    (Err(AttributeError), root)
  }

  /** The as-written lookup fails on a built order where the element-wise lookup answers
      whenever `<unk>` is registered. */
  lemma AsWrittenLookupFails(root: map<nat, Index>, v: Vocab, query: seq<string>)
    requires Unk in v.wrdToIdx && |query| in root
    ensures LookupSetAsWritten(root, v, query) == (Err(AttributeError), root)
    ensures LookupSet(root, v, query).0.Ok?
  {
  }
}
