/** The vocabulary file: one `word<TAB>freq` line per frequency entry. The text of a line is
    not modelled; a line is the pair it carries. */
module VocabFile {
  import opened Common
  import opened Vocabulary
  import opened FreqSort
  import VocabCap

  datatype Line = Line(wrd: string, freq: nat)

  /** `wrd_freq[i] = x` on the defaultdict, i at most one past the last key. */
  function SetFreq(f: seq<nat>, i: nat, x: nat): (r: seq<nat>)
    requires i <= |f|
    ensures |r| == if i < |f| then |f| else |f| + 1
    ensures r[i] == x && forall j :: 0 <= j < |f| && j != i ==> r[j] == f[j]
  {
    if i < |f| then f[i := x] else f + [x]
  }

  /** The loop of `build_from_file` on a fresh dictionary: line i adds its word, then sets the
      frequency entry i (the line number, not the word's id) to the line's frequency. */
  function LoadLines(lines: seq<Line>): (r: Vocab)
    ensures Valid(r) && |r.wrdFreq| == |lines|
  {
    if lines == [] then Empty
    else
      var a := AddWrd(LoadLines(lines[..|lines| - 1]), lines[|lines| - 1].wrd);
      a.(wrdFreq := SetFreq(a.wrdFreq, |lines| - 1, lines[|lines| - 1].freq))
  }

  /** The same loop run on a dictionary that already holds words. The line number stays the
      key of the frequency entry that is set, whatever id the word has. */
  function LoadFrom(v: Vocab, lines: seq<Line>): (r: Vocab)
    requires Valid(v)
    ensures Valid(r) && |r.wrdFreq| >= |lines| && |r.wrdFreq| >= |v.wrdFreq|
  {
    if lines == [] then v
    else
      var a := AddWrd(LoadFrom(v, lines[..|lines| - 1]), lines[|lines| - 1].wrd);
      a.(wrdFreq := SetFreq(a.wrdFreq, |lines| - 1, lines[|lines| - 1].freq))
  }

  /** One more line is one more step of the loop. */
  lemma LoadFromSnoc(v: Vocab, lines: seq<Line>, i: nat)
    requires Valid(v) && i < |lines|
    ensures var a := AddWrd(LoadFrom(v, lines[..i]), lines[i].wrd);
      LoadFrom(v, lines[..i + 1]) == a.(wrdFreq := SetFreq(a.wrdFreq, i, lines[i].freq))
  {
    assert lines[..i + 1][..i] == lines[..i];
  }

  /** From a fresh dictionary the general loop is the fresh one. */
  lemma {:induction false} LoadFromEmpty(lines: seq<Line>)
    ensures LoadFrom(Empty, lines) == LoadLines(lines)
  {
    if lines != [] {
      LoadFromEmpty(lines[..|lines| - 1]);
    }
  }

  /** `build_from_file` on a fresh dictionary: the loop, then `idx = len(wrd_to_idx)`. */
  function BuildFromFile(lines: seq<Line>): Vocab
  {
    var r := LoadLines(lines);
    r.(idx := |r.wrdToIdx|)
  }

  predicate DistinctWords(lines: seq<Line>)
  {
    forall i, j :: 0 <= i < j < |lines| ==> lines[i].wrd != lines[j].wrd
  }

  /** Line i's word under id i. */
  function LineWords(lines: seq<Line>): map<nat, string>
  {
    map i | 0 <= i < |lines| :: lines[i].wrd
  }

  /** Line i's frequency as entry i. */
  function LineFreqs(lines: seq<Line>): (f: seq<nat>)
    ensures |f| == |lines| && forall i :: 0 <= i < |lines| ==> f[i] == lines[i].freq
  {
    seq(|lines|, i requires 0 <= i < |lines| => lines[i].freq)
  }

  /** A file of distinct words loads line i as id i with the line's frequency. */
  lemma {:induction false} LoadDistinct(lines: seq<Line>)
    requires DistinctWords(lines)
    ensures LoadLines(lines).idx == |lines|
    ensures LoadLines(lines).idxToWrd == LineWords(lines)
    ensures LoadLines(lines).wrdFreq == LineFreqs(lines)
  {
    if lines != [] {
      var init, last := lines[..|lines| - 1], lines[|lines| - 1];
      assert lines == init + [last];
      assert DistinctWords(init);
      LoadDistinct(init);
      forall i | 0 <= i < |init|
        ensures init[i].wrd != last.wrd
      {
        assert lines[i] == init[i];
      }
      LoadStep(init, last);
    }
  }

  /** One more line with a new word: it gets the next id and its frequency. */
  lemma LoadStep(init: seq<Line>, last: Line)
    requires forall i :: 0 <= i < |init| ==> init[i].wrd != last.wrd
    requires LoadLines(init).idx == |init|
    requires LoadLines(init).idxToWrd == LineWords(init)
    requires LoadLines(init).wrdFreq == LineFreqs(init)
    ensures LoadLines(init + [last]).idx == |init| + 1
    ensures LoadLines(init + [last]).idxToWrd == LineWords(init + [last])
    ensures LoadLines(init + [last]).wrdFreq == LineFreqs(init + [last])
  {
    var p := LoadLines(init);
    NotLoaded(init, last.wrd);
    var a := AddWrd(p, last.wrd);
    LoadLinesSnoc(init, last);
    LineWordsSnoc(init, last);
    FreqsSnoc(init, last, a.wrdFreq);
  }

  /** One more line is one more step of the loop on a fresh dictionary. */
  lemma LoadLinesSnoc(init: seq<Line>, last: Line)
    ensures var a := AddWrd(LoadLines(init), last.wrd);
      LoadLines(init + [last]) == a.(wrdFreq := SetFreq(a.wrdFreq, |init|, last.freq))
  {
    assert (init + [last])[..|init|] == init;
  }

  /** Setting entry |init| of the next frequency table to the new line's frequency extends
      the line frequencies by that line. */
  lemma FreqsSnoc(init: seq<Line>, last: Line, f: seq<nat>)
    requires |f| == |init| + 1 && f[..|init|] == LineFreqs(init)
    ensures SetFreq(f, |init|, last.freq) == LineFreqs(init + [last])
  {
    var r := SetFreq(f, |init|, last.freq);
    var lines := init + [last];
    forall i | 0 <= i < |lines|
      ensures r[i] == lines[i].freq
    {
      if i < |init| {
        assert f[i] == f[..|init|][i];
      }
    }
  }

  /** A word on none of the lines is not loaded. */
  lemma NotLoaded(init: seq<Line>, w: string)
    requires forall i :: 0 <= i < |init| ==> init[i].wrd != w
    requires LoadLines(init).idxToWrd == LineWords(init)
    ensures w !in LoadLines(init).wrdToIdx
  {
    var p := LoadLines(init);
    forall x | x in p.wrdToIdx
      ensures x != w
    {
      var i := p.wrdToIdx[x];
      assert p.idxToWrd[i] == x == init[i].wrd;
    }
  }

  lemma LineWordsSnoc(init: seq<Line>, last: Line)
    ensures LineWords(init + [last]) == LineWords(init)[|init| := last.wrd]
  {
    var lines := init + [last];
    forall i | i in LineWords(lines)
      ensures i in LineWords(init)[|init| := last.wrd]
    {
    }
    forall i | i in LineWords(init)
      ensures LineWords(lines)[i] == LineWords(init)[i]
    {
      assert lines[i] == init[i];
    }
  }

  /** Two consistent dictionaries with the same id-to-word map have the same word-to-id map. */
  lemma SameIdsSameWords(a: Vocab, b: Vocab)
    requires Valid(a) && Valid(b) && a.idxToWrd == b.idxToWrd
    ensures a.wrdToIdx == b.wrdToIdx
  {
    forall w | w in a.wrdToIdx
      ensures w in b.wrdToIdx && b.wrdToIdx[w] == a.wrdToIdx[w]
    {
      assert b.idxToWrd[a.wrdToIdx[w]] == w;
    }
    forall w | w in b.wrdToIdx
      ensures w in a.wrdToIdx
    {
      assert a.idxToWrd[b.wrdToIdx[w]] == w;
    }
  }

  /** The backend `save_as_file`: the frequency entries in id order. */
  function SaveById(v: Vocab): (lines: seq<Line>)
    ensures |lines| == |v.wrdFreq|
    ensures forall i :: 0 <= i < |lines| ==> lines[i] == Line(WrdOf(v, i), v.wrdFreq[i])
  {
    seq(|v.wrdFreq|, i requires 0 <= i < |v.wrdFreq| => Line(WrdOf(v, i), v.wrdFreq[i]))
  }

  /** Saving a consistent dictionary in id order and loading the file back into a fresh
      dictionary reproduces it: both maps, the counter and every frequency. */
  lemma SaveByIdRoundTrip(v: Vocab)
    requires Valid(v) && Tight(v)
    ensures BuildFromFile(SaveById(v)) == v
  {
    var lines := SaveById(v);
    SaveByIdDistinct(v);
    LoadDistinct(lines);
    BuildFromFileIsLoad(lines);
    var r := LoadLines(lines);
    SaveByIdIds(v);
    SameIdsSameWords(r, v);
  }

  lemma SaveByIdDistinct(v: Vocab)
    requires Valid(v) && Tight(v)
    ensures DistinctWords(SaveById(v))
  {
    var lines := SaveById(v);
    forall i, j | 0 <= i < j < |lines|
      ensures lines[i].wrd != lines[j].wrd
    {
      assert v.wrdToIdx[v.idxToWrd[i]] == i;
    }
  }

  /** The id-order file lists exactly the id-to-word map and the frequency table. */
  lemma SaveByIdIds(v: Vocab)
    requires Valid(v) && Tight(v)
    ensures LineWords(SaveById(v)) == v.idxToWrd
    ensures LineFreqs(SaveById(v)) == v.wrdFreq
  {
  }

  /** `save_as_file` of ngram/dictionary.py as written: it calls `self.sort_dict_by_value`,
      which that class does not define, so it always raises before writing anything. */
  function SaveByFreqAsWritten(v: Vocab): (r: Result<seq<Line>>)
    ensures r == Err(AttributeError)
  {
    Err(AttributeError)
  }

  /** The save the method evidently intends (the backend class's `sort_dict_by_value`):
      the frequency entries in descending-frequency order, ties in id order. */
  function SaveByFreq(v: Vocab): (lines: seq<Line>)
    ensures |lines| == |v.wrdFreq|
    ensures forall k :: 0 <= k < |lines| ==>
              lines[k] == Line(WrdOf(v, SortByFreq(v.wrdFreq)[k]), v.wrdFreq[SortByFreq(v.wrdFreq)[k]])
  {
    var order := SortByFreq(v.wrdFreq);
    seq(|order|, k requires 0 <= k < |order| => Line(WrdOf(v, order[k]), v.wrdFreq[order[k]]))
  }

  /** The file lists frequencies in descending order. */
  lemma SaveByFreqDescending(v: Vocab)
    ensures var lines := SaveByFreq(v);
      forall a, b :: 0 <= a < b < |lines| ==> lines[a].freq >= lines[b].freq
  {
    SortByFreqSorted(v.wrdFreq);
  }

  /** Saving by frequency and loading back keeps every word and its frequency, and gives each
      word its frequency rank as its new id. */
  lemma SaveByFreqRoundTrip(v: Vocab)
    requires Valid(v) && Tight(v)
    ensures var r := BuildFromFile(SaveByFreq(v));
      && Valid(r) && Tight(r) && r.idx == v.idx
      && r.wrdToIdx.Keys == v.wrdToIdx.Keys
      && (forall w :: w in v.wrdToIdx ==> Count(r, w) == Count(v, w))
      && (forall w :: w in v.wrdToIdx ==> r.wrdToIdx[w] == VocabCap.Position(SortByFreq(v.wrdFreq), v.wrdToIdx[w]))
  {
    BuildFromFileIsLoad(SaveByFreq(v));
    SaveByFreqDistinct(v);
    LoadDistinct(SaveByFreq(v));
    SaveByFreqRanks(v);
  }

  /** The closing `idx = len(wrd_to_idx)` of `build_from_file` changes nothing: the counter
      already equals the number of words. */
  lemma BuildFromFileIsLoad(lines: seq<Line>)
    ensures BuildFromFile(lines) == LoadLines(lines)
  {
    ValidCard(LoadLines(lines));
  }

  lemma SaveByFreqRanks(v: Vocab)
    requires Valid(v) && Tight(v)
    ensures var r := LoadLines(SaveByFreq(v));
      && r.wrdToIdx.Keys == v.wrdToIdx.Keys
      && (forall w :: w in v.wrdToIdx ==> Count(r, w) == Count(v, w))
      && (forall w :: w in v.wrdToIdx ==> r.wrdToIdx[w] == VocabCap.Position(SortByFreq(v.wrdFreq), v.wrdToIdx[w]))
  {
    SaveByFreqDistinct(v);
    LoadDistinct(SaveByFreq(v));
    SavedKeys(v);
    forall w | w in v.wrdToIdx
      ensures Count(LoadLines(SaveByFreq(v)), w) == Count(v, w)
      ensures LoadLines(SaveByFreq(v)).wrdToIdx[w] == VocabCap.Position(SortByFreq(v.wrdFreq), v.wrdToIdx[w])
    {
      SavedRank(v, w);
    }
  }

  /** Every word of the file was a word of the dictionary, and back. */
  lemma SavedKeys(v: Vocab)
    requires Valid(v) && Tight(v)
    requires LoadLines(SaveByFreq(v)).idxToWrd == LineWords(SaveByFreq(v))
    requires LoadLines(SaveByFreq(v)).wrdFreq == LineFreqs(SaveByFreq(v))
    ensures LoadLines(SaveByFreq(v)).wrdToIdx.Keys == v.wrdToIdx.Keys
  {
    SavedKeysBack(v);
    forall w | w in v.wrdToIdx
      ensures w in LoadLines(SaveByFreq(v)).wrdToIdx
    {
      SavedRank(v, w);
    }
  }

  lemma SavedKeysBack(v: Vocab)
    requires Valid(v) && Tight(v)
    requires LoadLines(SaveByFreq(v)).idxToWrd == LineWords(SaveByFreq(v))
    ensures forall w :: w in LoadLines(SaveByFreq(v)).wrdToIdx ==> w in v.wrdToIdx
  {
    var lines := SaveByFreq(v);
    var r := LoadLines(lines);
    forall w | w in r.wrdToIdx
      ensures w in v.wrdToIdx
    {
      var k := r.wrdToIdx[w];
      assert lines[k].wrd == w;
    }
  }

  /** A word's line in the frequency-ordered file is its rank. */
  lemma SavedRank(v: Vocab, w: string)
    requires Valid(v) && Tight(v) && w in v.wrdToIdx
    requires LoadLines(SaveByFreq(v)).idxToWrd == LineWords(SaveByFreq(v))
    requires LoadLines(SaveByFreq(v)).wrdFreq == LineFreqs(SaveByFreq(v))
    ensures var k := VocabCap.Position(SortByFreq(v.wrdFreq), v.wrdToIdx[w]);
      && SaveByFreq(v)[k] == Line(w, v.wrdFreq[v.wrdToIdx[w]])
      && w in LoadLines(SaveByFreq(v)).wrdToIdx
      && LoadLines(SaveByFreq(v)).wrdToIdx[w] == k
      && LoadLines(SaveByFreq(v)).wrdFreq[k] == v.wrdFreq[v.wrdToIdx[w]]
      && Count(LoadLines(SaveByFreq(v)), w) == Count(v, w)
  {
    var order := SortByFreq(v.wrdFreq);
    assert v.wrdToIdx[w] in order;
    var k := VocabCap.Position(order, v.wrdToIdx[w]);
    var r := LoadLines(SaveByFreq(v));
    assert r.idxToWrd[k] == SaveByFreq(v)[k].wrd == w;
  }

  lemma SaveByFreqDistinct(v: Vocab)
    requires Valid(v) && Tight(v)
    ensures DistinctWords(SaveByFreq(v))
  {
    var order := SortByFreq(v.wrdFreq);
    var lines := SaveByFreq(v);
    forall a, b | 0 <= a < b < |lines|
      ensures lines[a].wrd != lines[b].wrd
    {
      assert v.wrdToIdx[v.idxToWrd[order[a]]] == order[a];
      assert v.wrdToIdx[v.idxToWrd[order[b]]] == order[b];
    }
  }
}
