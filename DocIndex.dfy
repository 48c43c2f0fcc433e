/** The document fold shared by every n-gram index builder: documents are visited in order,
    document d is added under each key computed from it, and the first exception raised
    while computing a document's keys ends the build. The key type is an id tuple for the
    tuple-keyed indexes and a packed integer for the packed ones. */
module DocIndex {
  import opened Common

  /** The result of a `lookup`: its case number and the matched document indices. */
  datatype Answer = Answer(kind: nat, matched: set<nat>)

  /** `ngram_to_idx_set[k].add(d)` for every k of keys, in order. */
  function AddDoc<K>(ix: map<K, set<nat>>, d: nat, keys: seq<K>): (r: map<K, set<nat>>)
  {
    if keys == [] then ix
    else
      var p := AddDoc(ix, d, keys[..|keys| - 1]);
      var k := keys[|keys| - 1];
      p[k := (if k in p then p[k] else {}) + {d}]
  }

  /** Adding a document creates exactly its keys and puts the document under each of them;
      every other entry is untouched. */
  lemma {:induction false} AddDocSpec<K>(ix: map<K, set<nat>>, d: nat, keys: seq<K>)
    ensures forall k :: k in AddDoc(ix, d, keys) <==> k in ix || k in keys
    ensures forall k :: k in AddDoc(ix, d, keys) ==>
      AddDoc(ix, d, keys)[k] == (if k in ix then ix[k] else {}) + (if k in keys then {d} else {})
  {
    if keys != [] {
      var init := keys[..|keys| - 1];
      AddDocSpec(ix, d, init);
      assert keys == init + [keys[|keys| - 1]];
    }
  }

  /** Adding the keys one more window at a time. */
  lemma AddDocSnoc<K>(ix: map<K, set<nat>>, d: nat, keys: seq<K>, k: K)
    ensures var p := AddDoc(ix, d, keys);
      AddDoc(ix, d, keys + [k]) == p[k := (if k in p then p[k] else {}) + {d}]
  {
    assert (keys + [k])[..|keys|] == keys;
  }

  /** The document loop of `build_ngrams`, for any way `keysOf` of computing a document's
      keys: document d is added under each of its keys; the first exception ends the build. */
  function Build<D, K>(docs: seq<D>, keysOf: D -> Result<seq<K>>): (r: Result<map<K, set<nat>>>)
  {
    if docs == [] then Ok(map[])
    else
      match Build(docs[..|docs| - 1], keysOf)
      case Err(e) => Err(e)
      case Ok(ix) =>
        match keysOf(docs[|docs| - 1])
        case Err(e) => Err(e)
        case Ok(keys) => Ok(AddDoc(ix, |docs| - 1, keys))
  }

  /** One more document. */
  lemma BuildSnoc<D, K>(docs: seq<D>, keysOf: D -> Result<seq<K>>, m: nat)
    requires m < |docs|
    ensures Build(docs[..m + 1], keysOf) ==
      match Build(docs[..m], keysOf)
      case Err(e) => Err(e)
      case Ok(ix) =>
        match keysOf(docs[m])
        case Err(e) => Err(e)
        case Ok(keys) => Ok(AddDoc(ix, m, keys))
  {
    assert docs[..m + 1][..m] == docs[..m];
  }

  /** Once a prefix of the documents fails, the whole build fails with the same exception. */
  lemma {:induction false} BuildErr<D, K>(docs: seq<D>, keysOf: D -> Result<seq<K>>, m: nat, e: Error)
    requires m <= |docs| && Build(docs[..m], keysOf) == Err(e)
    ensures Build(docs, keysOf) == Err(e)
    decreases |docs| - m
  {
    if m == |docs| {
      assert docs[..m] == docs;
    } else {
      BuildSnoc(docs, keysOf, m);
      BuildErr(docs, keysOf, m + 1, e);
    }
  }

  /** The build succeeds exactly when every document's keys can be computed. */
  lemma {:induction false} BuildOk<D, K>(docs: seq<D>, keysOf: D -> Result<seq<K>>)
    ensures Build(docs, keysOf).Ok? <==> forall d :: 0 <= d < |docs| ==> keysOf(docs[d]).Ok?
  {
    if docs != [] {
      var init := docs[..|docs| - 1];
      BuildOk(init, keysOf);
      assert forall d :: 0 <= d < |init| ==> init[d] == docs[d];
    }
  }

  /** Index membership: after the build, k is a key iff some document has it, and document d
      is stored under k iff k is one of d's keys. */
  lemma {:induction false} BuildMembers<D, K>(docs: seq<D>, keysOf: D -> Result<seq<K>>, k: K, d: nat)
    requires Build(docs, keysOf).Ok?
    ensures forall e :: 0 <= e < |docs| ==> keysOf(docs[e]).Ok?
    ensures k in Build(docs, keysOf).value <==>
      exists e :: 0 <= e < |docs| && k in keysOf(docs[e]).value
    ensures k in Build(docs, keysOf).value ==>
      (d in Build(docs, keysOf).value[k] <==> d < |docs| && k in keysOf(docs[d]).value)
  {
    BuildOk(docs, keysOf);
    if docs != [] {
      var last := |docs| - 1;
      var init := docs[..last];
      BuildOk(init, keysOf);
      assert forall e :: 0 <= e < |init| ==> init[e] == docs[e];
      BuildMembers(init, keysOf, k, d);
      var ix := Build(init, keysOf).value;
      var keys := keysOf(docs[last]).value;
      AddDocSpec(ix, last, keys);
      if k in Build(docs, keysOf).value && !(k in keys) {
        assert k in ix;
      }
      if e :| 0 <= e < |docs| && k in keysOf(docs[e]).value {
        if e < last {
          assert k in ix;
        }
      }
    }
  }

  /** A build in which every failing document fails with e fails, if at all, with e. */
  lemma {:induction false} BuildErrOnly<D, K>(docs: seq<D>, keysOf: D -> Result<seq<K>>, e: Error)
    requires forall d :: 0 <= d < |docs| && keysOf(docs[d]).Err? ==> keysOf(docs[d]).error == e
    ensures Build(docs, keysOf).Err? ==> Build(docs, keysOf).error == e
  {
    if docs != [] {
      var init := docs[..|docs| - 1];
      assert forall d :: 0 <= d < |init| ==> init[d] == docs[d];
      BuildErrOnly(init, keysOf, e);
    }
  }
}
