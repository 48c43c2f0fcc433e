/** The packed-integer n-gram index of sumtool/ngram: every n-window of a document's ids is
    encoded as one integer by the rolling radix key of `build_ngrams`, and the index maps
    each key to the set of documents that contain it. */
module PackedIndex {
  import opened Common
  import opened Packing
  import opened DocIndex

  /** One order of `ngrams_root`: the rows (ngram, doc_idx_list) of the table, by key. */
  type Table = map<nat, set<nat>>

  function Min(a: nat, b: nat): nat
  {
    if a <= b then a else b
  }

  /** How many ids at the end of `ids` follow the last `<unk>` (or the document start). */
  function RunLen(ids: seq<nat>, unk: nat): (r: nat)
    ensures r <= |ids|
  {
    if ids == [] then 0
    else if ids[|ids| - 1] == unk then 0
    else RunLen(ids[..|ids| - 1], unk) + 1
  }

  /** The run since the last `<unk>` is at least m long exactly when the last m ids avoid `<unk>`. */
  lemma {:induction false} RunLenAvoids(ids: seq<nat>, unk: nat, m: nat)
    ensures m <= RunLen(ids, unk) <==> m <= |ids| && forall i :: |ids| - m <= i < |ids| ==> ids[i] != unk
  {
    if ids != [] && m > 0 {
      var init := ids[..|ids| - 1];
      RunLenAvoids(init, unk, m - 1);
      assert forall i :: 0 <= i < |init| ==> init[i] == ids[i];
    }
  }

  /** The value of `start` in `build_ngrams` after the loop has read `ids`: reset to 0 by
      `<unk>`, otherwise `start = MAX * (start % MAX ** (n - 1)) + word_idx`. */
  function Start(ids: seq<nat>, n: nat, base: nat, unk: nat): nat
    requires n >= 1 && Pow(base, n - 1) > 0
  {
    if ids == [] then 0
    else
      var x := ids[|ids| - 1];
      if x == unk then 0 else base * (Start(ids[..|ids| - 1], n, base, unk) % Pow(base, n - 1)) + x
  }

  /** The keys `build_ngrams` records while reading `ids`, in order: after each non-`<unk>` id
      whose `start` has reached MAX ** (n - 1). */
  function Recorded(ids: seq<nat>, n: nat, base: nat, unk: nat): seq<nat>
    requires n >= 1 && Pow(base, n - 1) > 0
  {
    if ids == [] then []
    else
      var x := ids[|ids| - 1];
      Recorded(ids[..|ids| - 1], n, base, unk) +
        (if x != unk && Start(ids, n, base, unk) >= Pow(base, n - 1) then [Start(ids, n, base, unk)] else [])
  }

  /** The reference the rolling key is meant to compute: the packed key of every window that
      avoids `<unk>` and whose leading id is non-zero, in window order. */
  function PackedWindows(ws: seq<seq<nat>>, base: nat, unk: nat): (r: seq<nat>)
    ensures |r| <= |ws|
  {
    if ws == [] then []
    else
      var w := ws[|ws| - 1];
      PackedWindows(ws[..|ws| - 1], base, unk) +
        (if |w| > 0 && unk !in w && w[0] >= 1 then [Pack(w, base)] else [])
  }

  /** One document's keys, or the ZeroDivisionError of `start % MAX ** (n - 1)` when that power
      is 0 (MAX = 0 and n >= 2) and the document has an id that is not `<unk>`. */
  function DocKeys(ids: seq<nat>, n: nat, base: nat, unk: nat): Result<seq<nat>>
    requires n >= 1
  {
    if Pow(base, n - 1) > 0 then Ok(Recorded(ids, n, base, unk))
    else if forall i :: 0 <= i < |ids| ==> ids[i] == unk then Ok([])
    else Err(ZeroDivisionError)
  }

  /** `build_ngrams(n)` over documents given as id sequences: the table's content. */
  function BuildTable(docs: seq<seq<nat>>, n: nat, base: nat, unk: nat): Result<Table>
    requires n >= 1
  {
    Build(docs, ids => DocKeys(ids, n, base, unk))
  }

  /** One step of the rolling key on a full window of n digits: the reduction modulo
      MAX ** (n - 1) drops its leading digit before the new one is shifted in. */
  lemma RollFull(w: seq<nat>, x: nat, base: nat)
    requires |w| >= 1 && Below(w, base)
    ensures Pow(base, |w| - 1) > 0
    ensures base * (Pack(w, base) % Pow(base, |w| - 1)) + x == Pack(w[1..] + [x], base)
  {
    PackDropFirst(w, base);
    PackSnoc(w[1..], x, base);
  }

  /** One step of the rolling key on a window shorter than n: the reduction keeps it whole. */
  lemma RollShort(w: seq<nat>, x: nat, n: nat, base: nat)
    requires n >= 1 && |w| < n && Below(w, base) && x < base
    ensures Pow(base, n - 1) > 0
    ensures base * (Pack(w, base) % Pow(base, n - 1)) + x == Pack(w + [x], base)
  {
    var p, big := Pack(w, base), Pow(base, n - 1);
    PowPositive(base, n - 1);
    PackBound(w, base);
    PowMonotone(base, |w|, n - 1);
    SmallMod(p, big);
    PackSnoc(w, x, base);
  }

  lemma SmallMod(a: nat, m: nat)
    requires a < m
    ensures a % m == a
  {
    DivModUnique(a / m, a % m, 0, a, m);
  }

  /** Rolling-key correctness: given every id is a digit of MAX, `start` is the packing of the
      last min(k, n) ids read since the last `<unk>` or the document start. */
  lemma {:induction false} StartIsPack(ids: seq<nat>, n: nat, base: nat, unk: nat)
    requires n >= 1 && Pow(base, n - 1) > 0 && Below(ids, base)
    ensures Start(ids, n, base, unk) == Pack(ids[|ids| - Min(RunLen(ids, unk), n)..], base)
  {
    if ids != [] {
      var init, x := ids[..|ids| - 1], ids[|ids| - 1];
      if x == unk {
        assert ids[|ids|..] == [];
      } else {
        assert Below(init, base);
        StartIsPack(init, n, base, unk);
        if RunLen(init, unk) >= n {
          StartFull(ids, n, base, unk);
        } else {
          StartShort(ids, n, base, unk);
        }
      }
    }
  }

  /** The step of `StartIsPack` after a full window. */
  lemma StartFull(ids: seq<nat>, n: nat, base: nat, unk: nat)
    requires n >= 1 && Pow(base, n - 1) > 0 && Below(ids, base) && ids != [] && ids[|ids| - 1] != unk
    requires var init := ids[..|ids| - 1];
      RunLen(init, unk) >= n && Start(init, n, base, unk) == Pack(init[|init| - n..], base)
    ensures RunLen(ids, unk) >= n && Start(ids, n, base, unk) == Pack(ids[|ids| - n..], base)
  {
    var init, x := ids[..|ids| - 1], ids[|ids| - 1];
    var w := init[|init| - n..];
    assert Below(w, base);
    RollFull(w, x, base);
    TailSnoc(ids, n - 1);
    assert w[1..] == init[|init| - (n - 1)..];
  }

  /** The last r ids before the final one, followed by it, are the last r + 1 ids. */
  lemma TailSnoc(ids: seq<nat>, r: nat)
    requires r < |ids|
    ensures ids[..|ids| - 1][|ids| - 1 - r..] + [ids[|ids| - 1]] == ids[|ids| - (r + 1)..]
  {
  }

  /** The step of `StartIsPack` inside a window still shorter than n. */
  lemma StartShort(ids: seq<nat>, n: nat, base: nat, unk: nat)
    requires n >= 1 && Pow(base, n - 1) > 0 && Below(ids, base) && ids != [] && ids[|ids| - 1] != unk
    requires var init := ids[..|ids| - 1]; var r := RunLen(init, unk);
      r < n && Start(init, n, base, unk) == Pack(init[|init| - r..], base)
    ensures var r := RunLen(ids, unk);
      r <= n && Start(ids, n, base, unk) == Pack(ids[|ids| - r..], base)
  {
    var init, x := ids[..|ids| - 1], ids[|ids| - 1];
    var r := RunLen(init, unk);
    assert RunLen(ids, unk) == r + 1;
    var w := init[|init| - r..];
    assert Below(w, base);
    RollShort(w, x, n, base);
    TailSnoc(ids, r);
  }

  /** After reading `ids`, the loop records a key exactly when the last n ids form a window that
      avoids `<unk>` and has a non-zero leading id, and the key is that window's packing. */
  lemma StepRecords(ids: seq<nat>, n: nat, base: nat, unk: nat)
    requires n >= 1 && Pow(base, n - 1) > 0 && Below(ids, base) && ids != []
    ensures var x := ids[|ids| - 1];
      (x != unk && Start(ids, n, base, unk) >= Pow(base, n - 1)) <==>
        (|ids| >= n && unk !in ids[|ids| - n..] && ids[|ids| - n] >= 1)
    ensures |ids| >= n && unk !in ids[|ids| - n..] ==> Start(ids, n, base, unk) == Pack(ids[|ids| - n..], base)
  {
    var r := RunLen(ids, unk);
    StartIsPack(ids, n, base, unk);
    RunLenAvoids(ids, unk, n);
    var w := ids[|ids| - Min(r, n)..];
    assert Below(w, base);
    if r >= n {
      assert unk !in ids[|ids| - n..];
      PackLeading(w, base);
    } else {
      PackBound(w, base);
      PowMonotone(base, |w|, n - 1);
      if |ids| >= n {
        var i :| |ids| - n <= i < |ids| && ids[i] == unk;
        assert ids[|ids| - n..][i - (|ids| - n)] == unk;
      }
    }
  }

  /** The recorded keys are exactly the reference: the rolling key records, in order, the
      packing of each n-window that avoids `<unk>` and has a non-zero leading id. */
  lemma {:induction false} RecordedWindows(ids: seq<nat>, n: nat, base: nat, unk: nat)
    requires n >= 1 && Pow(base, n - 1) > 0 && Below(ids, base)
    ensures Recorded(ids, n, base, unk) == PackedWindows(Windows(ids, n), base, unk)
  {
    if ids != [] {
      var init, x := ids[..|ids| - 1], ids[|ids| - 1];
      assert Below(init, base);
      if |ids| >= n {
        var last := ids[|ids| - n..];
        var extra := if unk !in last && last[0] >= 1 then [Pack(last, base)] else [];
        calc {
          Recorded(ids, n, base, unk);
          { RecordedStep(ids, n, base, unk); }
          Recorded(init, n, base, unk) + extra;
          { RecordedWindows(init, n, base, unk); }
          PackedWindows(Windows(init, n), base, unk) + extra;
          { PackedWindowsSnoc(Windows(init, n), last, base, unk); }
          PackedWindows(Windows(init, n) + [last], base, unk);
          { WindowsLast(ids, n); }
          PackedWindows(Windows(ids, n), base, unk);
        }
      } else {
        calc {
          Recorded(ids, n, base, unk);
          { RecordedStep(ids, n, base, unk); }
          Recorded(init, n, base, unk);
          { RecordedWindows(init, n, base, unk); }
          PackedWindows(Windows(init, n), base, unk);
          PackedWindows(Windows(ids, n), base, unk);
        }
      }
    }
  }

  /** What the last id adds to the recorded keys. */
  lemma RecordedStep(ids: seq<nat>, n: nat, base: nat, unk: nat)
    requires n >= 1 && Pow(base, n - 1) > 0 && Below(ids, base) && ids != []
    ensures |ids| < n ==> Recorded(ids, n, base, unk) == Recorded(ids[..|ids| - 1], n, base, unk)
    ensures |ids| >= n ==> (Recorded(ids, n, base, unk) == Recorded(ids[..|ids| - 1], n, base, unk) +
      (if unk !in ids[|ids| - n..] && ids[|ids| - n] >= 1 then [Pack(ids[|ids| - n..], base)] else []))
  {
    StepRecords(ids, n, base, unk);
  }

  /** What one more window adds to the reference list. */
  lemma PackedWindowsSnoc(ws: seq<seq<nat>>, w: seq<nat>, base: nat, unk: nat)
    ensures PackedWindows(ws + [w], base, unk) ==
      PackedWindows(ws, base, unk) + (if |w| > 0 && unk !in w && w[0] >= 1 then [Pack(w, base)] else [])
  {
    assert (ws + [w])[..|ws|] == ws;
  }

  /** Membership in the reference list of packed windows. */
  lemma {:induction false} PackedWindowsMembers(ws: seq<seq<nat>>, base: nat, unk: nat, k: nat)
    ensures k in PackedWindows(ws, base, unk) <==>
      exists w :: w in ws && |w| > 0 && unk !in w && w[0] >= 1 && Pack(w, base) == k
  {
    if ws != [] {
      var init := ws[..|ws| - 1];
      PackedWindowsMembers(init, base, unk, k);
      assert ws == init + [ws[|ws| - 1]];
    }
  }

  /** k is the packing of an n-window of ids that avoids `<unk>` and has a non-zero leading id. */
  ghost predicate PacksWindow(ids: seq<nat>, n: nat, base: nat, unk: nat, k: nat)
  {
    exists w :: w in Windows(ids, n) && unk !in w && w[0] >= 1 && Pack(w, base) == k
  }

  /** A document's keys: with every id a digit of MAX, the keys are the packings of its
      n-windows that avoid `<unk>` and have a non-zero leading id; no exception is raised. */
  lemma DocKeysMembers(ids: seq<nat>, n: nat, base: nat, unk: nat, k: nat)
    requires n >= 1 && Below(ids, base)
    ensures DocKeys(ids, n, base, unk).Ok?
    ensures k in DocKeys(ids, n, base, unk).value <==> PacksWindow(ids, n, base, unk, k)
  {
    if Pow(base, n - 1) > 0 {
      RecordedWindows(ids, n, base, unk);
      PackedWindowsMembers(Windows(ids, n), base, unk, k);
    } else {
      if ids != [] {
        assert ids[0] < base;
        PowPositive(base, n - 1);
      }
    }
  }

  /** A document with an id other than `<unk>` fails the build with ZeroDivisionError when
      MAX ** (n - 1) is 0, as with MAX = 0 and n >= 2. */
  lemma ZeroRadixFails(ids: seq<nat>, n: nat, unk: nat, i: nat)
    requires n >= 2 && i < |ids| && ids[i] != unk
    ensures DocKeys(ids, n, 0, unk) == Err(ZeroDivisionError)
  {
    assert Pow(0, n - 1) == 0 * Pow(0, n - 2);
  }

  /** The working state of `build_ngrams`: `ngram_to_idx_set` (key to position) and
      `doc_table` (position to document set). */
  datatype Positions = Positions(keyPos: map<nat, nat>, docTable: seq<set<nat>>)

  /** The two structures stay aligned: every key has its own position inside `doc_table`, and
      there are as many keys as positions. */
  ghost predicate Aligned(p: Positions)
  {
    (forall k :: k in p.keyPos ==> p.keyPos[k] < |p.docTable|) &&
    (forall k, k' :: k in p.keyPos && k' in p.keyPos && p.keyPos[k] == p.keyPos[k'] ==> k == k') &&
    |p.keyPos| == |p.docTable|
  }

  /** The table built from the two: one row (key, `doc_table[position]`) per key. */
  function Rows(p: Positions): Table
    requires forall k :: k in p.keyPos ==> p.keyPos[k] < |p.docTable|
  {
    map k | k in p.keyPos :: p.docTable[p.keyPos[k]]
  }

  /** Aligned positions are exactly 0..|doc_table|-1: every entry of `doc_table` belongs to a key. */
  lemma AlignedDense(p: Positions, i: nat)
    requires Aligned(p) && i < |p.docTable|
    ensures exists k :: k in p.keyPos && p.keyPos[k] == i
  {
    var used := p.keyPos.Values;
    InjectiveCard(p.keyPos.Keys, used, p.keyPos);
    var all := Range(|p.docTable|);
    assert used <= all;
    if i !in used {
      assert used <= all - {i};
      assert |all - {i}| == |all| - 1;
      SubsetCard(used, all - {i});
      assert false;
    }
  }

  lemma {:induction false} SubsetCard<T>(a: set<T>, b: set<T>)
    requires a <= b
    ensures |a| <= |b|
  {
    assert b == a + (b - a);
  }

  /** No state yet: the empty map and table. */
  lemma EmptyAligned()
    ensures Aligned(Positions(map[], [])) && Rows(Positions(map[], [])) == map[]
  {
  }

  /** One recorded key: a new key gets the next position and a fresh set `{d}`, a known key's
      set gains d. The table gains d under the key and nothing else changes. */
  method Record(p: Positions, key: nat, d: nat) returns (q: Positions)
    requires Aligned(p)
    ensures Aligned(q)
    ensures Rows(q) == Rows(p)[key := (if key in Rows(p) then Rows(p)[key] else {}) + {d}]
  {
    if key !in p.keyPos {
      q := Positions(p.keyPos[key := |p.docTable|], p.docTable + [{d}]);
      RecordNew(p, key, d);
    } else {
      var pos := p.keyPos[key];
      q := Positions(p.keyPos, p.docTable[pos := p.docTable[pos] + {d}]);
      RecordKnown(p, key, d);
    }
  }

  lemma RecordNew(p: Positions, key: nat, d: nat)
    requires Aligned(p) && key !in p.keyPos
    ensures var q := Positions(p.keyPos[key := |p.docTable|], p.docTable + [{d}]);
      Aligned(q) && Rows(q) == Rows(p)[key := {d}]
  {
    var q := Positions(p.keyPos[key := |p.docTable|], p.docTable + [{d}]);
    assert |q.keyPos| == |p.keyPos| + 1;
    assert Aligned(q);
    RecordNewRows(p, key, d);
  }

  lemma RecordNewRows(p: Positions, key: nat, d: nat)
    requires forall k :: k in p.keyPos ==> p.keyPos[k] < |p.docTable|
    requires key !in p.keyPos
    ensures var q := Positions(p.keyPos[key := |p.docTable|], p.docTable + [{d}]);
      Rows(q) == Rows(p)[key := {d}]
  {
    var q := Positions(p.keyPos[key := |p.docTable|], p.docTable + [{d}]);
    assert forall k :: k in p.keyPos ==> q.keyPos[k] == p.keyPos[k] && q.docTable[q.keyPos[k]] == p.docTable[p.keyPos[k]];
  }

  lemma RecordKnown(p: Positions, key: nat, d: nat)
    requires Aligned(p) && key in p.keyPos
    ensures var pos := p.keyPos[key];
      var q := Positions(p.keyPos, p.docTable[pos := p.docTable[pos] + {d}]);
      Aligned(q) && Rows(q) == Rows(p)[key := Rows(p)[key] + {d}]
  {
    var pos := p.keyPos[key];
    var q := Positions(p.keyPos, p.docTable[pos := p.docTable[pos] + {d}]);
    assert forall k :: k in p.keyPos && k != key ==> q.docTable[q.keyPos[k]] == p.docTable[p.keyPos[k]];
  }

  /** What the inner loop of `build_ngrams` has done after reading the first j ids of a
      document: with a positive MAX ** (n - 1), `start` is the rolling key and the table holds
      the keys recorded so far; with MAX ** (n - 1) = 0, only `<unk>` ids have been read. */
  ghost predicate Scanned(p0: Positions, p: Positions, start: nat, d: nat, ids: seq<nat>, j: nat, n: nat, base: nat, unk: nat)
    requires n >= 1 && j <= |ids| && Aligned(p0)
  {
    Aligned(p) &&
    (Pow(base, n - 1) == 0 ==> p == p0 && forall i :: 0 <= i < j ==> ids[i] == unk) &&
    (Pow(base, n - 1) > 0 ==>
       start == Start(ids[..j], n, base, unk) &&
       Rows(p) == AddDoc(Rows(p0), d, Recorded(ids[..j], n, base, unk)))
  }

  /** The inner loop of `build_ngrams` over one document's ids: the rolling key, the
      `<unk>` reset, the MAX ** (n - 1) threshold and one `Record` per recorded key. */
  method AddDocument(p0: Positions, d: nat, ids: seq<nat>, n: nat, base: nat, unk: nat) returns (r: Result<Positions>)
    requires n >= 1 && Aligned(p0)
    ensures DocKeys(ids, n, base, unk).Err? ==> r == Err(DocKeys(ids, n, base, unk).error)
    ensures DocKeys(ids, n, base, unk).Ok? ==>
      r.Ok? && Aligned(r.value) && Rows(r.value) == AddDoc(Rows(p0), d, DocKeys(ids, n, base, unk).value)
  {
    var p := p0;
    var start := 0;
    for j := 0 to |ids|
      invariant Scanned(p0, p, start, d, ids, j, n, base, unk)
    {
      var next := ReadId(p0, p, start, d, ids, j, n, base, unk);
      if next.Err? {
        return Err(next.error);
      }
      p, start := next.value.0, next.value.1;
    }
    assert ids[..|ids|] == ids;
    return Ok(p);
  }

  /** One pass of the inner loop, reading `ids[j]`. */
  method ReadId(p0: Positions, p: Positions, start: nat, d: nat, ids: seq<nat>, j: nat, n: nat, base: nat, unk: nat)
    returns (r: Result<(Positions, nat)>)
    requires n >= 1 && j < |ids| && Aligned(p0) && Scanned(p0, p, start, d, ids, j, n, base, unk)
    ensures r.Err? ==> r.error == ZeroDivisionError && DocKeys(ids, n, base, unk) == Err(ZeroDivisionError)
    ensures r.Ok? ==> Scanned(p0, r.value.0, r.value.1, d, ids, j + 1, n, base, unk)
  {
    var x := ids[j];
    if x == unk {
      SkipStep(p0, p, start, d, ids, j, n, base, unk, 0);
      return Ok((p, 0));
    }
    var w := Pow(base, n - 1);
    if w == 0 {
      assert ids[j] != unk;
      return Err(ZeroDivisionError);
    }
    var start' := base * (start % w) + x;
    if start' < w {
      SkipStep(p0, p, start, d, ids, j, n, base, unk, start');
      return Ok((p, start'));
    }
    var q := Record(p, start', d);
    RecordStep(p0, p, q, start, d, ids, j, n, base, unk, start');
    return Ok((q, start'));
  }

  /** An id that records nothing: `<unk>`, or a key still below MAX ** (n - 1). */
  lemma SkipStep(p0: Positions, p: Positions, start: nat, d: nat, ids: seq<nat>, j: nat, n: nat, base: nat, unk: nat, start': nat)
    requires n >= 1 && j < |ids| && Aligned(p0) && Scanned(p0, p, start, d, ids, j, n, base, unk)
    requires Pow(base, n - 1) == 0 ==> ids[j] == unk
    requires ids[j] == unk ==> start' == 0
    requires ids[j] != unk ==> start' == base * (start % Pow(base, n - 1)) + ids[j] && start' < Pow(base, n - 1)
    ensures Scanned(p0, p, start', d, ids, j + 1, n, base, unk)
  {
    if Pow(base, n - 1) > 0 {
      var rec := Recorded(ids[..j], n, base, unk);
      LoopStep(ids, j, n, base, unk);
      assert start' == Start(ids[..j + 1], n, base, unk);
      assert Recorded(ids[..j + 1], n, base, unk) == rec + [];
      assert rec + [] == rec;
    } else {
      forall i | 0 <= i < j + 1
        ensures ids[i] == unk
      {
      }
    }
  }

  /** An id whose key reaches MAX ** (n - 1): the key gains document d. */
  lemma RecordStep(p0: Positions, p: Positions, q: Positions, start: nat, d: nat, ids: seq<nat>, j: nat, n: nat, base: nat, unk: nat, start': nat)
    requires n >= 1 && j < |ids| && Aligned(p0) && Scanned(p0, p, start, d, ids, j, n, base, unk)
    requires Pow(base, n - 1) > 0 && ids[j] != unk
    requires start' == base * (start % Pow(base, n - 1)) + ids[j] && start' >= Pow(base, n - 1)
    requires Aligned(q) && Rows(q) == Rows(p)[start' := (if start' in Rows(p) then Rows(p)[start'] else {}) + {d}]
    ensures Scanned(p0, q, start', d, ids, j + 1, n, base, unk)
  {
    LoopStep(ids, j, n, base, unk);
    AddDocSnoc(Rows(p0), d, Recorded(ids[..j], n, base, unk), start');
  }

  lemma LoopStep(ids: seq<nat>, j: nat, n: nat, base: nat, unk: nat)
    requires n >= 1 && Pow(base, n - 1) > 0 && j < |ids|
    ensures var s, x, big := Start(ids[..j], n, base, unk), ids[j], Pow(base, n - 1);
      var s' := Start(ids[..j + 1], n, base, unk);
      s' == (if x == unk then 0 else base * (s % big) + x) &&
      Recorded(ids[..j + 1], n, base, unk) ==
        Recorded(ids[..j], n, base, unk) + (if x != unk && s' >= big then [s'] else [])
  {
    assert ids[..j + 1][..j] == ids[..j];
  }

  /** The document loop of `build_ngrams` over documents given as id sequences (the
      tokenizer's output): the table it stores is `BuildTable`. */
  method BuildRows(docs: seq<seq<nat>>, n: nat, base: nat, unk: nat) returns (r: Result<Table>)
    requires n >= 1
    ensures r == BuildTable(docs, n, base, unk)
  {
    ghost var f := (ids: seq<nat>) => DocKeys(ids, n, base, unk);
    var p := Positions(map[], []);
    EmptyAligned();
    assert docs[..0] == [];
    for d := 0 to |docs|
      invariant Aligned(p) && Build(docs[..d], f) == Ok(Rows(p))
    {
      BuildSnoc(docs, f, d);
      var next := AddDocument(p, d, docs[d], n, base, unk);
      if next.Err? {
        BuildErr(docs, f, d + 1, next.error);
        return Err(next.error);
      }
      p := next.value;
    }
    assert docs[..|docs|] == docs;
    return Ok(Rows(p));
  }

  /** `lookup(query_idx, ngram_df)` of the id-based engines: case 0 for an empty query, case 1
      when it holds the `<unk>` id, otherwise the row of its packed key: case 2 with no match
      when there is none, case 3 with the row's documents. */
  function LookupIds(table: Table, base: nat, unk: nat, query: seq<nat>): Answer
  {
    if |query| == 0 then Answer(0, {})
    else if unk in query then Answer(1, {})
    else
      var key := Pack(query, base);
      if key in table then Answer(3, table[key]) else Answer(2, {})
  }

  /** Exactly one case per call, decided in the source's order. */
  lemma LookupIdsCases(table: Table, base: nat, unk: nat, query: seq<nat>)
    ensures var a := LookupIds(table, base, unk, query);
      (a.kind == 0 <==> query == []) &&
      (a.kind == 1 <==> query != [] && unk in query) &&
      (a.kind == 2 <==> query != [] && unk !in query && Pack(query, base) !in table) &&
      (a.kind == 3 <==> query != [] && unk !in query && Pack(query, base) in table) &&
      (a.kind != 3 ==> a.matched == {}) &&
      (a.kind == 3 ==> a.matched == table[Pack(query, base)])
  {
  }

  /** Lookup against a built table: a query of n digits of MAX that avoids `<unk>` and has a
      non-zero leading id is found exactly when some document holds it as an n-window, and
      the match is the set of those documents. */
  lemma LookupAfterBuild(docs: seq<seq<nat>>, n: nat, base: nat, unk: nat, query: seq<nat>)
    requires n >= 1 && |query| == n && Below(query, base) && unk !in query && query[0] >= 1
    requires forall d :: 0 <= d < |docs| ==> Below(docs[d], base)
    requires BuildTable(docs, n, base, unk).Ok?
    ensures var a := LookupIds(BuildTable(docs, n, base, unk).value, base, unk, query);
      (a.kind == 3 <==> exists d :: 0 <= d < |docs| && OccursIn(query, docs[d])) &&
      (a.kind == 2 <==> !exists d :: 0 <= d < |docs| && OccursIn(query, docs[d])) &&
      forall d: nat :: d in a.matched <==> d < |docs| && OccursIn(query, docs[d])
  {
    var f := (ids: seq<nat>) => DocKeys(ids, n, base, unk);
    var key := Pack(query, base);
    forall d | 0 <= d < |docs|
      ensures f(docs[d]).Ok? && (key in f(docs[d]).value <==> OccursIn(query, docs[d]))
    {
      DocHolds(docs[d], n, base, unk, query);
    }
    forall d: nat
      ensures key in BuildTable(docs, n, base, unk).value ==>
        (d in BuildTable(docs, n, base, unk).value[key] <==> d < |docs| && key in f(docs[d]).value)
      ensures key in BuildTable(docs, n, base, unk).value <==>
        exists e :: 0 <= e < |docs| && key in f(docs[e]).value
    {
      BuildMembers(docs, f, key, d);
    }
  }

  /** A document records the key of a query (n digits of MAX, no `<unk>`, non-zero leading id)
      exactly when the query occurs in it. */
  lemma DocHolds(ids: seq<nat>, n: nat, base: nat, unk: nat, query: seq<nat>)
    requires n >= 1 && |query| == n && Below(query, base) && unk !in query && query[0] >= 1
    requires Below(ids, base)
    ensures DocKeys(ids, n, base, unk).Ok?
    ensures Pack(query, base) in DocKeys(ids, n, base, unk).value <==> OccursIn(query, ids)
  {
    var key := Pack(query, base);
    DocKeysMembers(ids, n, base, unk, key);
    WindowsMembership(ids, n, query);
    if w :| w in Windows(ids, n) && unk !in w && w[0] >= 1 && Pack(w, base) == key {
      SameKeySameWindow(ids, n, base, w, query);
    }
  }

  /** Two n-windows of digits with the same key are the same window. */
  lemma SameKeySameWindow(ids: seq<nat>, n: nat, base: nat, w: seq<nat>, query: seq<nat>)
    requires |query| == n && Below(query, base) && Below(ids, base)
    requires w in Windows(ids, n) && Pack(w, base) == Pack(query, base)
    ensures w == query
  {
    var i :| 0 <= i < |Windows(ids, n)| && Windows(ids, n)[i] == w;
    assert w == ids[i..i + n];
    assert Below(w, base);
    PackInjective(w, query, base);
  }
}
