/** What the two tokenizer-based engines of sumtool/ngram (`SummaryNgramLookup` and
    `NgramSummaryLookup`) have in common: documents and summaries are turned into ids by a
    tokenizer, each order n is a packed-integer table built with the rolling key, and a
    summary is looked up window by window, either in a table or in one document. */
module SummaryIndex {
  import opened Common
  import opened Packing
  import opened DocIndex
  import opened PackedIndex

  /** The part of a Hugging Face tokenizer the engines use: `encode(text,
      add_special_tokens=False)`, `unk_token_id` and `vocab_size`. */
  datatype Tokenizer = Tokenizer(encode: string -> seq<nat>, unkTokenId: nat, vocabSize: nat)

  /** Every document through the tokenizer, as `build_ngrams` encodes them one by one. */
  function Encoded(tok: Tokenizer, docs: seq<string>): seq<seq<nat>>
  {
    MapSeq(tok.encode, docs)
  }

  /** `build_ngrams(n)` and the orders it leaves behind: an order already present is skipped;
      otherwise the table of the encoded documents is stored, unless the build raised. */
  function BuildOrder(root: map<nat, Table>, docs: seq<seq<nat>>, n: nat, base: nat, unk: nat): (Outcome, map<nat, Table>)
    requires n >= 1
  {
    if n in root then (Pass, root)
    else
      match BuildTable(docs, n, base, unk)
      case Err(e) => (Fail(e), root)
      case Ok(t) => (Pass, root[n := t])
  }

  /** What `build_ngram_dictionary` leaves under order m, or the exception it raises there:
      the stored file when one exists (`load_ngram_dict`), otherwise what `build_ngrams(m)`
      keeps or builds. */
  function LoadedOrder(root: map<nat, Table>, stored: map<nat, Table>, docs: seq<seq<nat>>, m: nat, base: nat, unk: nat): Result<Table>
    requires m >= 1
  {
    if m in stored then Ok(stored[m])
    else if m in root then Ok(root[m])
    else BuildTable(docs, m, base, unk)
  }

  /** The build against its partner definition: when every id is a digit of MAX, a new
      order is built without error, and document d is stored under key k exactly when k packs
      an n-window of d's ids that avoids `<unk>` and has a non-zero leading id. */
  lemma BuildOrderMembers(root: map<nat, Table>, docs: seq<seq<nat>>, n: nat, base: nat, unk: nat, k: nat, d: nat)
    requires n >= 1 && n !in root
    requires forall e :: 0 <= e < |docs| ==> Below(docs[e], base)
    ensures BuildOrder(root, docs, n, base, unk).0 == Pass && n in BuildOrder(root, docs, n, base, unk).1
    ensures var t := BuildOrder(root, docs, n, base, unk).1[n];
      k in t && d in t[k] <==> d < |docs| && PacksWindow(docs[d], n, base, unk, k)
  {
    var f := (ids: seq<nat>) => DocKeys(ids, n, base, unk);
    forall e | 0 <= e < |docs|
      ensures f(docs[e]).Ok?
    {
      DocKeysMembers(docs[e], n, base, unk, k);
    }
    BuildOk(docs, f);
    BuildMembers(docs, f, k, d);
    if d < |docs| {
      DocKeysMembers(docs[d], n, base, unk, k);
    }
  }

  /** With MAX == 0 and n >= 2, `MAX ** (n - 1)` is 0: one id other than `<unk>` in any
      document makes the build raise ZeroDivisionError, and no order is stored. */
  lemma BuildOrderZeroRadix(root: map<nat, Table>, docs: seq<seq<nat>>, n: nat, unk: nat, d: nat, i: nat)
    requires n >= 2 && n !in root && d < |docs| && i < |docs[d]| && docs[d][i] != unk
    ensures BuildOrder(root, docs, n, 0, unk) == (Fail(ZeroDivisionError), root)
  {
    var f := (ids: seq<nat>) => DocKeys(ids, n, 0, unk);
    ZeroRadixFails(docs[d], n, unk, i);
    BuildOk(docs, f);
    BuildErrOnly(docs, f, ZeroDivisionError);
  }

  /** A query whose leading id is 0 is never found in a built table, even when a document
      holds it: the rolling key only records windows whose key has reached MAX ** (n - 1). */
  lemma LeadingZeroNeverFound(docs: seq<seq<nat>>, n: nat, base: nat, unk: nat, query: seq<nat>)
    requires n >= 1 && |query| == n && Below(query, base) && unk !in query && query[0] == 0
    requires forall d :: 0 <= d < |docs| ==> Below(docs[d], base)
    requires BuildTable(docs, n, base, unk).Ok?
    ensures LookupIds(BuildTable(docs, n, base, unk).value, base, unk, query) == Answer(2, {})
  {
    var f := (ids: seq<nat>) => DocKeys(ids, n, base, unk);
    var key := Pack(query, base);
    BuildMembers(docs, f, key, 0);
    if key in BuildTable(docs, n, base, unk).value {
      var e :| 0 <= e < |docs| && key in f(docs[e]).value;
      DocKeysMembers(docs[e], n, base, unk, key);
      var w :| w in Windows(docs[e], n) && unk !in w && w[0] >= 1 && Pack(w, base) == key;
      SameKeySameWindow(docs[e], n, base, w, query);
      assert false;
    }
  }

  /** `lookup(query_idx, ngram_df)`: the query's packed key (the loop summing
      `idx * MAX ** (n - 1 - i)`) looked up in one table. */
  method LookupQuery(query: seq<nat>, table: Table, base: nat, unk: nat) returns (a: Answer)
    ensures a == LookupIds(table, base, unk, query)
  {
    if |query| == 0 {
      return Answer(0, {});
    }
    if unk in query {
      return Answer(1, {});
    }
    var ngramInt := PackQuery(query, base);
    if ngramInt !in table {
      return Answer(2, {});
    }
    return Answer(3, table[ngramInt]);
  }

  /** One entry of `lookup_summary_from_dataset`: the window with its case and match. */
  datatype Match = Match(ngram: seq<nat>, answer: Answer)

  /** The loop of `lookup_summary_from_dataset`: one entry per window, in order, each
      carrying its window and the lookup of that window. */
  method LookupWindows(ws: seq<seq<nat>>, table: Table, base: nat, unk: nat) returns (r: seq<Match>)
    ensures |r| == |ws|
    ensures forall i :: 0 <= i < |ws| ==> r[i] == Match(ws[i], LookupIds(table, base, unk, ws[i]))
  {
    r := [];
    for i := 0 to |ws|
      invariant |r| == i
      invariant forall j :: 0 <= j < i ==> r[j] == Match(ws[j], LookupIds(table, base, unk, ws[j]))
    {
      var a := LookupQuery(ws[i], table, base, unk);
      r := r + [Match(ws[i], a)];
    }
  }

  /** One entry of `lookup_summary_from_document`: the window, its case and `match_count`. */
  datatype CountRow = CountRow(ngram: seq<nat>, kind: nat, matchCount: nat)

  /** The entry for window w of the summary: case 1 with count 0 when it holds `<unk>`;
      otherwise its number of occurrences among the document's windows, case 2 when that
      is 0 and case 3 when it is not. */
  function DocumentRow(w: seq<nat>, document: seq<nat>, unk: nat): CountRow
  {
    if unk in w then CountRow(w, 1, 0)
    else if Occurrences(w, document) == 0 then CountRow(w, 2, 0)
    else CountRow(w, 3, Occurrences(w, document))
  }

  /** The cases of a document row against the document itself: `<unk>` wins whatever the
      document holds; otherwise case 3 exactly when the window occurs in the document, and
      the count is the number of positions where it occurs. */
  lemma DocumentRowCases(w: seq<nat>, document: seq<nat>, unk: nat)
    requires |w| >= 1
    ensures var r := DocumentRow(w, document, unk);
      r.ngram == w &&
      (r.kind == 1 <==> unk in w) &&
      (r.kind == 2 <==> unk !in w && !OccursIn(w, document)) &&
      (r.kind == 3 <==> unk !in w && OccursIn(w, document)) &&
      (r.kind != 3 ==> r.matchCount == 0) &&
      (r.kind == 3 ==> r.matchCount == |set i: nat | i < |document| && At(w, document, i)|)
  {
    var ws := Windows(document, |w|);
    WindowsMembership(document, |w|, w);
    var positions := set i: nat | i < |document| && At(w, document, i);
    MultisetCount(ws, w, positions);
  }

  /** How often x occurs in s is the number of positions holding x. */
  lemma {:induction false} MultisetCount<T>(s: seq<T>, x: T, positions: set<nat>)
    requires forall i: nat :: i in positions <==> i < |s| && s[i] == x
    ensures multiset(s)[x] == |positions|
  {
    if s != [] {
      var init, last := s[..|s| - 1], s[|s| - 1];
      var before := positions - {|s| - 1};
      DropLastPosition(s, x, positions, before);
      MultisetCount(init, x, before);
      SnocCount(s, init, last, x);
      PositionsSnoc(positions, before, |s| - 1, last == x);
    }
  }

  /** The positions of x in s without the last one are its positions in s's front. */
  lemma DropLastPosition<T>(s: seq<T>, x: T, positions: set<nat>, before: set<nat>)
    requires s != [] && before == positions - {|s| - 1}
    requires forall i: nat :: i in positions <==> i < |s| && s[i] == x
    ensures forall i: nat :: i in before <==> i < |s| - 1 && s[..|s| - 1][i] == x
  {
  }

  /** Appending one element adds one to its own count and nothing to any other. */
  lemma SnocCount<T>(s: seq<T>, init: seq<T>, last: T, x: T)
    requires s == init + [last]
    ensures multiset(s)[x] == multiset(init)[x] + (if last == x then 1 else 0)
  {
  }

  /** Removing the last position from the set of positions holding x. */
  lemma PositionsSnoc(positions: set<nat>, before: set<nat>, top: nat, holds: bool)
    requires before == positions - {top}
    requires top in positions <==> holds
    ensures |positions| == |before| + (if holds then 1 else 0)
  {
    if holds {
      assert positions == before + {top};
    } else {
      assert positions == before;
    }
  }

  /** The counting loop of `lookup_summary_from_document` (`document_ngram_dict`): every
      window seen gets a key, and its value is how many times it was seen. */
  method Tally(ws: seq<seq<nat>>) returns (counts: map<seq<nat>, nat>)
    ensures forall w :: (w in counts <==> w in multiset(ws)) && (w in counts ==> counts[w] == multiset(ws)[w])
  {
    counts := map[];
    for i := 0 to |ws|
      invariant forall w :: (w in counts <==> w in multiset(ws[..i])) && (w in counts ==> counts[w] == multiset(ws[..i])[w])
    {
      assert ws[..i + 1] == ws[..i] + [ws[i]];
      var w := ws[i];
      if w in counts {
        counts := counts[w := counts[w] + 1];
      } else {
        counts := counts[w := 1];
      }
    }
    assert ws[..|ws|] == ws;
  }

  /** The counts of a document's n-windows: the keys are its windows and each count is that
      window's number of occurrences. */
  method CountWindows(document: seq<nat>, n: nat) returns (counts: map<seq<nat>, nat>)
    ensures forall w :: w in counts <==> w in Windows(document, n)
    ensures forall w :: w in counts ==> |w| == n && counts[w] == Occurrences(w, document)
  {
    var ws := Windows(document, n);
    counts := Tally(ws);
    forall w | w in counts
      ensures |w| == n && counts[w] == Occurrences(w, document)
    {
      WindowLength(document, n, w);
    }
  }

  /** Every window has the length it was cut at. */
  lemma WindowLength<T>(s: seq<T>, n: nat, w: seq<T>)
    requires w in Windows(s, n)
    ensures |w| == n
  {
    var i :| 0 <= i < |Windows(s, n)| && Windows(s, n)[i] == w;
  }

  /** `lookup_summary_from_document` on ids: one row per window of the summary, in order. */
  method LookupCounts(summary: seq<nat>, document: seq<nat>, n: nat, unk: nat) returns (rows: seq<CountRow>)
    ensures |rows| == |Windows(summary, n)|
    ensures forall i :: 0 <= i < |rows| ==> rows[i] == DocumentRow(Windows(summary, n)[i], document, unk)
  {
    var counts := CountWindows(document, n);
    var ws := Windows(summary, n);
    rows := [];
    for i := 0 to |ws|
      invariant |rows| == i
      invariant forall j :: 0 <= j < i ==> rows[j] == DocumentRow(ws[j], document, unk)
    {
      var w := ws[i];
      var row;
      if unk in w {
        row := CountRow(w, 1, 0);
      } else if w !in counts {
        row := CountRow(w, 2, 0);
      } else {
        row := CountRow(w, 3, counts[w]);
      }
      CountedRow(counts, document, n, w, unk, row);
      RowsSnoc(rows, ws, row, document, unk);
      rows := rows + [row];
    }
  }

  /** One more row, for the next window, keeps the rows in step with the windows. */
  lemma RowsSnoc(rows: seq<CountRow>, ws: seq<seq<nat>>, row: CountRow, document: seq<nat>, unk: nat)
    requires |rows| < |ws| && row == DocumentRow(ws[|rows|], document, unk)
    requires forall j :: 0 <= j < |rows| ==> rows[j] == DocumentRow(ws[j], document, unk)
    ensures forall j :: 0 <= j < |rows| + 1 ==> (rows + [row])[j] == DocumentRow(ws[j], document, unk)
  {
  }

  /** The row the loop builds from the document's counts is the window's document row. */
  lemma CountedRow(counts: map<seq<nat>, nat>, document: seq<nat>, n: nat, w: seq<nat>, unk: nat, row: CountRow)
    requires |w| == n
    requires forall v :: v in counts <==> v in Windows(document, n)
    requires forall v :: v in counts ==> counts[v] == Occurrences(v, document)
    requires row == if unk in w then CountRow(w, 1, 0)
      else if w !in counts then CountRow(w, 2, 0)
      else CountRow(w, 3, counts[w])
    ensures row == DocumentRow(w, document, unk)
  {
    if unk !in w && w !in counts {
      assert w !in multiset(Windows(document, n));
    }
  }
}
