/** The annotation overlay of interface/utils/faithfulness_annotations.py (repeated in
    interface/faithfulness_interface.py): an annotated summary is a list of chunks, each a
    piece of text with the set of annotator labels covering it. `annotation_overlap` adds one
    label to a character range by cutting chunks, `annotation_merge` joins neighbours with equal
    labels, and `annotation_render` turns chunks into display items. */
module Annotations {
  import opened Common

  /** `n_details`: one annotator's label, `(hallucination_type, worker_id)`. */
  datatype Tag = Tag(hallucinationType: int, workerId: string)

  /** One `[text, tag set]` entry of an annotation list. */
  datatype Chunk = Chunk(text: string, tags: set<Tag>)

  /** The annotated text: the chunks' texts in order. */
  function Text(a: seq<Chunk>): string
  {
    if a == [] then [] else Text(a[..|a| - 1]) + a[|a| - 1].text
  }

  /** One chunk's tag set, once per character. */
  function Rep(c: Chunk): (r: seq<set<Tag>>)
    ensures |r| == |c.text| && forall i :: 0 <= i < |r| ==> r[i] == c.tags
  {
    seq(|c.text|, _ => c.tags)
  }

  /** The tag set of every character, in order: the annotation as a reader sees it,
      whatever the cutting into chunks. */
  function Expand(a: seq<Chunk>): seq<set<Tag>>
  {
    if a == [] then [] else Expand(a[..|a| - 1]) + Rep(a[|a| - 1])
  }

  /** One tag set per character of the text. */
  lemma {:induction false} ExpandLength(a: seq<Chunk>)
    ensures |Expand(a)| == |Text(a)|
  {
    if a != [] {
      ExpandLength(a[..|a| - 1]);
    }
  }

  /** Where chunk i starts in the text: the lengths of the chunks before it. */
  function Off(a: seq<Chunk>, i: nat): nat
    requires i <= |a|
  {
    if i == 0 then 0 else Off(a, i - 1) + |a[i - 1].text|
  }

  /** The offset of chunk i is the length of the text before it. */
  lemma {:induction false} OffText(a: seq<Chunk>, i: nat)
    requires i <= |a|
    ensures Off(a, i) == |Text(a[..i])|
  {
    if i > 0 {
      OffText(a, i - 1);
      assert a[..i][..i - 1] == a[..i - 1];
    }
  }

  /** Chunks of the same lengths have the same offsets. */
  lemma {:induction false} SameOffsets(a: seq<Chunk>, b: seq<Chunk>, x: nat)
    requires x <= |a| && x <= |b| && forall y :: 0 <= y < x ==> |a[y].text| == |b[y].text|
    ensures Off(a, x) == Off(b, x)
  {
    if x > 0 {
      SameOffsets(a, b, x - 1);
    }
  }

  predicate NoEmpty(a: seq<Chunk>)
  {
    forall i :: 0 <= i < |a| ==> a[i].text != []
  }

  function Max(x: int, y: int): int
  {
    if x >= y then x else y
  }

  /** a has the text of ann, and every character in [lo, hi) has gained `tag` while every
      other character keeps exactly its tags. */
  ghost predicate Tagged(ann: seq<Chunk>, a: seq<Chunk>, lo: int, hi: int, tag: Tag)
  {
    Text(a) == Text(ann) && |Expand(a)| == |Expand(ann)| &&
    forall p :: 0 <= p < |Expand(ann)| ==> Expand(a)[p] == Expand(ann)[p] + (if lo <= p < hi then {tag} else {})
  }

  // ----- Cutting and tagging one chunk -----

  /** `ann.insert(i, [text, tags.copy()])` followed by cutting the two copies at m. */
  function Split(a: seq<Chunk>, i: nat, m: nat): (b: seq<Chunk>)
    requires i < |a| && m <= |a[i].text|
    ensures |b| == |a| + 1
  {
    (a[..i] + [Chunk(a[i].text[..m], a[i].tags)]) + ([Chunk(a[i].text[m..], a[i].tags)] + a[i + 1..])
  }

  /** `ann[i][1].add(tag)` */
  function AddTag(a: seq<Chunk>, i: nat, tag: Tag): (b: seq<Chunk>)
    requires i < |a|
    ensures |b| == |a|
  {
    a[i := Chunk(a[i].text, a[i].tags + {tag})]
  }

  lemma {:induction false} Concat(a: seq<Chunk>, b: seq<Chunk>)
    ensures Text(a + b) == Text(a) + Text(b) && Expand(a + b) == Expand(a) + Expand(b)
  {
    if b == [] {
      assert a + b == a;
    } else {
      var init, c := b[..|b| - 1], b[|b| - 1];
      Concat(a, init);
      assert (a + b)[..|a + b| - 1] == a + init && (a + b)[|a + b| - 1] == c;
      calc {
        Text(a + b);
        Text(a + init) + c.text;
        (Text(a) + Text(init)) + c.text;
        Text(a) + (Text(init) + c.text);
        Text(a) + Text(b);
      }
      calc {
        Expand(a + b);
        Expand(a + init) + Rep(c);
        (Expand(a) + Expand(init)) + Rep(c);
        Expand(a) + (Expand(init) + Rep(c));
        Expand(a) + Expand(b);
      }
    }
  }

  lemma Single(c: Chunk)
    ensures Text([c]) == c.text && Expand([c]) == Rep(c)
  {
    assert [c][..0] == [];
  }

  /** Chunk i closes the prefix a[..i + 1]. */
  lemma Snoc(a: seq<Chunk>, i: nat)
    requires i < |a|
    ensures Text(a[..i + 1]) == Text(a[..i]) + a[i].text && Expand(a[..i + 1]) == Expand(a[..i]) + Rep(a[i])
  {
    assert a[..i + 1][..i] == a[..i];
  }

  /** The text and the tags around chunk i. */
  lemma Around(a: seq<Chunk>, i: nat)
    requires i < |a|
    ensures Text(a) == Text(a[..i]) + a[i].text + Text(a[i + 1..])
    ensures Expand(a) == Expand(a[..i]) + Rep(a[i]) + Expand(a[i + 1..])
  {
    Snoc(a, i);
    Split2(a, i + 1);
  }

  /** Any cut of the chunk list cuts the text and the tags at the same place. */
  lemma Split2(a: seq<Chunk>, n: nat)
    requires n <= |a|
    ensures Text(a) == Text(a[..n]) + Text(a[n..]) && Expand(a) == Expand(a[..n]) + Expand(a[n..])
  {
    var front, back := a[..n], a[n..];
    assert a == front + back;
    calc {
      Text(a);
      Text(front + back);
      { Concat(front, back); }
      Text(front) + Text(back);
    }
    calc {
      Expand(a);
      Expand(front + back);
      { Concat(front, back); }
      Expand(front) + Expand(back);
    }
  }

  lemma OffStep(a: seq<Chunk>, i: nat)
    requires i < |a|
    ensures Off(a, i + 1) == Off(a, i) + |a[i].text|
  {
  }

  lemma OffEnds(a: seq<Chunk>)
    ensures Off(a, 0) == 0 && Off(a, |a|) == |Text(a)|
  {
    OffText(a, |a|);
    assert a[..|a|] == a;
  }

  lemma Regroup<T>(x: seq<T>, h: seq<T>, t: seq<T>, r: seq<T>)
    ensures (x + h) + (t + r) == x + (h + t) + r
  {
  }

  /** The two pieces of a chunk cut at m make up the chunk again. */
  lemma PieceJoin(c: Chunk, m: nat)
    requires m <= |c.text|
    ensures c.text[..m] + c.text[m..] == c.text
    ensures Rep(Chunk(c.text[..m], c.tags)) + Rep(Chunk(c.text[m..], c.tags)) == Rep(c)
  {
  }

  /** Cutting a chunk changes neither the text nor any character's tags. */
  lemma SplitKeeps(a: seq<Chunk>, i: nat, m: nat)
    requires i < |a| && m <= |a[i].text|
    ensures Text(Split(a, i, m)) == Text(a) && Expand(Split(a, i, m)) == Expand(a)
  {
    var c := a[i];
    var h, t := Chunk(c.text[..m], c.tags), Chunk(c.text[m..], c.tags);
    var left, right := a[..i], a[i + 1..];
    Around(a, i);
    Concat(left + [h], [t] + right);
    PieceJoin(c, m);
    assert Text(Split(a, i, m)) == Text(a) by {
      Concat(left, [h]);
      Concat([t], right);
      Single(h);
      Single(t);
      Regroup(Text(left), h.text, t.text, Text(right));
    }
    assert Expand(Split(a, i, m)) == Expand(a) by {
      Concat(left, [h]);
      Concat([t], right);
      Single(h);
      Single(t);
      Regroup(Expand(left), Rep(h), Rep(t), Expand(right));
    }
  }

  /** Cutting chunk i at m: the offsets before i stay, the second piece starts m further on,
      and every later chunk keeps its offset one place to the right. */
  lemma SplitOffset(a: seq<Chunk>, i: nat, m: nat, x: nat)
    requires i < |a| && m <= |a[i].text| && x <= |a|
    ensures x <= i ==> Off(Split(a, i, m), x) == Off(a, x)
    ensures Off(Split(a, i, m), i + 1) == Off(a, i) + m
    ensures i < x ==> Off(Split(a, i, m), x + 1) == Off(a, x)
  {
    var b := Split(a, i, m);
    assert forall y :: 0 <= y < i ==> b[y] == a[y];
    SameOffsets(a, b, i);
    if x <= i {
      SameOffsets(a, b, x);
    }
    if i < x {
      SplitOffsetAfter(a, i, m, x);
    }
  }

  lemma {:induction false} SplitOffsetAfter(a: seq<Chunk>, i: nat, m: nat, x: nat)
    requires i < x <= |a| && m <= |a[i].text| && Off(Split(a, i, m), i) == Off(a, i)
    ensures Off(Split(a, i, m), x + 1) == Off(a, x)
  {
    var b := Split(a, i, m);
    if x == i + 1 {
      assert |b[i].text| + |b[i + 1].text| == |a[i].text|;
    } else {
      SplitOffsetAfter(a, i, m, x - 1);
      assert b[x] == a[x - 1];
    }
  }

  lemma {:induction false} SameTexts(a: seq<Chunk>, b: seq<Chunk>)
    requires |a| == |b| && forall i :: 0 <= i < |a| ==> a[i].text == b[i].text
    ensures Text(a) == Text(b)
  {
    if a != [] {
      SameTexts(a[..|a| - 1], b[..|b| - 1]);
    }
  }

  /** Adding a tag to chunk i keeps every offset and adds the tag to exactly the characters
      of chunk i. */
  lemma TagLaw(a: seq<Chunk>, i: nat, tag: Tag)
    requires i < |a|
    ensures Text(AddTag(a, i, tag)) == Text(a)
    ensures |Expand(AddTag(a, i, tag))| == |Expand(a)|
    ensures forall p :: 0 <= p < |Expand(a)| ==>
      Expand(AddTag(a, i, tag))[p] == Expand(a)[p] + (if Off(a, i) <= p < Off(a, i + 1) then {tag} else {})
  {
    var b := AddTag(a, i, tag);
    SameTexts(a, b);
    Around(a, i);
    Around(b, i);
    assert b[..i] == a[..i] && b[i + 1..] == a[i + 1..];
    OffText(a, i);
    ExpandLength(a[..i]);
    var x, y := Expand(a[..i]), Expand(a[i + 1..]);
    var ra, rb := Rep(a[i]), Rep(b[i]);
    assert Expand(a) == x + ra + y && Expand(b) == x + rb + y;
    forall p | 0 <= p < |Expand(a)|
      ensures Expand(b)[p] == Expand(a)[p] + (if Off(a, i) <= p < Off(a, i + 1) then {tag} else {})
    {
      if p < |x| {
        assert Expand(a)[p] == x[p] && Expand(b)[p] == x[p];
      } else if p < |x| + |ra| {
        assert Expand(a)[p] == ra[p - |x|] && Expand(b)[p] == rb[p - |x|];
      } else {
        assert Expand(a)[p] == y[p - |x| - |ra|] && Expand(b)[p] == y[p - |x| - |rb|];
      }
    }
  }

  /** Tagging the chunk that starts where the tagged range ends extends the range over it. */
  lemma TagExtends(ann: seq<Chunk>, a: seq<Chunk>, i: nat, lo: int, tag: Tag)
    requires i < |a| && Tagged(ann, a, lo, Off(a, i), tag) && lo <= Off(a, i)
    ensures Tagged(ann, AddTag(a, i, tag), lo, Off(a, i + 1), tag)
  {
    TagLaw(a, i, tag);
    OffStep(a, i);
  }

  /** Adding a tag moves no chunk. */
  lemma AddTagOffset(a: seq<Chunk>, i: nat, tag: Tag, x: nat)
    requires i < |a| && x <= |a|
    ensures Off(AddTag(a, i, tag), x) == Off(a, x)
  {
    SameOffsets(a, AddTag(a, i, tag), x);
  }

  /** Nothing tagged yet. */
  lemma TaggedNone(ann: seq<Chunk>, a: seq<Chunk>, lo: int, tag: Tag)
    requires Text(a) == Text(ann) && Expand(a) == Expand(ann)
    ensures Tagged(ann, a, lo, lo, tag)
  {
  }

  // ----- `annotation_overlap` -----

  /** The chunk the scans of `annotation_overlap` stop at: the first from `from` on that ends
      after offset x, or the end of the list. */
  function Reach(a: seq<Chunk>, from: nat, x: nat): (r: nat)
    requires from <= |a|
    ensures from <= r <= |a|
    decreases |a| - from
  {
    if from == |a| || Off(a, from) + |a[from].text| > x then from else Reach(a, from + 1, x)
  }

  /** The two scans: the chunk holding n_start and the chunk holding n_end, with the offsets
      where they start (`prevstart_i`, `prevend_i`). */
  method Locate(ann: seq<Chunk>, s: nat, e: nat) returns (annStart: nat, prevStart: nat, annEnd: nat, prevEnd: nat)
    requires s <= e
    ensures annStart == Reach(ann, 0, s) && annEnd == Reach(ann, annStart, e)
    ensures prevStart == Off(ann, annStart) <= s && prevEnd == Off(ann, annEnd) <= e
    ensures annStart < |ann| ==> s < prevStart + |ann[annStart].text|
    ensures annEnd < |ann| ==> e < prevEnd + |ann[annEnd].text|
    ensures annStart < annEnd ==> Off(ann, annStart + 1) <= prevEnd
    ensures annStart + 1 < annEnd ==> Off(ann, annStart + 1) <= Off(ann, annEnd - 1)
  {
    OffEnds(ann);
    prevStart := 0;
    annStart := 0;
    while annStart < |ann| && prevStart + |ann[annStart].text| <= s
      invariant annStart <= |ann| && prevStart == Off(ann, annStart) <= s
      invariant Reach(ann, annStart, s) == Reach(ann, 0, s)
    {
      OffStep(ann, annStart);
      prevStart := prevStart + |ann[annStart].text|;
      annStart := annStart + 1;
    }
    prevEnd := prevStart;
    annEnd := annStart;
    while annEnd < |ann| && prevEnd + |ann[annEnd].text| <= e
      invariant annStart <= annEnd <= |ann| && prevEnd == Off(ann, annEnd) <= e
      invariant Reach(ann, annEnd, e) == Reach(ann, annStart, e)
      invariant annStart < annEnd ==> Off(ann, annStart + 1) <= prevEnd
      invariant annStart + 1 < annEnd ==> Off(ann, annStart + 1) <= Off(ann, annEnd - 1)
    {
      OffStep(ann, annEnd);
      prevEnd := prevEnd + |ann[annEnd].text|;
      annEnd := annEnd + 1;
    }
  }

  /** `ann.insert(i, [ann[i][0], ann[i][1].copy()])` followed by cutting the two copies at m:
      the text and every character's tags stay, chunk i becomes two pieces, and every later
      chunk moves one place to the right with its offset. */
  method Cut(a: seq<Chunk>, i: nat, m: nat) returns (b: seq<Chunk>)
    requires i < |a| && m <= |a[i].text|
    ensures |b| == |a| + 1 && Text(b) == Text(a) && Expand(b) == Expand(a)
    ensures forall y :: 0 <= y < i ==> b[y] == a[y]
    ensures b[i] == Chunk(a[i].text[..m], a[i].tags) && b[i + 1] == Chunk(a[i].text[m..], a[i].tags)
    ensures forall y :: i < y < |a| ==> b[y + 1] == a[y]
    ensures forall x :: 0 <= x <= i ==> Off(b, x) == Off(a, x)
    ensures Off(b, i + 1) == Off(a, i) + m
    ensures forall x :: i < x <= |a| ==> Off(b, x + 1) == Off(a, x)
  {
    SplitKeeps(a, i, m);
    forall x | 0 <= x <= |a|
      ensures x <= i ==> Off(Split(a, i, m), x) == Off(a, x)
      ensures i < x ==> Off(Split(a, i, m), x + 1) == Off(a, x)
    {
      SplitOffset(a, i, m, x);
    }
    SplitOffset(a, i, m, i);
    b := Split(a, i, m);
  }

  /** `ann[i][1].add(n_details)` on the chunk that starts where the tagged range ends: the
      range grows over the chunk, and no offset or other chunk changes. */
  method TagChunk(ann: seq<Chunk>, a: seq<Chunk>, i: nat, lo: int, tag: Tag) returns (b: seq<Chunk>)
    requires i < |a| && lo <= Off(a, i) && Tagged(ann, a, lo, Off(a, i), tag)
    ensures |b| == |a| && forall y :: 0 <= y < |a| && y != i ==> b[y] == a[y]
    ensures b[i] == Chunk(a[i].text, a[i].tags + {tag})
    ensures Tagged(ann, b, lo, Off(b, i + 1), tag) && Off(b, i + 1) == Off(a, i + 1)
  {
    TagExtends(ann, a, i, lo, tag);
    AddTagOffset(a, i, tag, i + 1);
    b := AddTag(a, i, tag);
  }

  /** The range lies inside chunk k: it is cut in three and the middle piece tagged. */
  method TagWithin(ann: seq<Chunk>, s: nat, e: nat, tag: Tag, k: nat, prev: nat) returns (a: seq<Chunk>)
    requires k < |ann| && prev == Off(ann, k) && prev <= s <= e < prev + |ann[k].text|
    ensures Tagged(ann, a, s, e, tag)
  {
    var front := Cut(ann, k, s - prev);
    var b := Cut(front, k + 1, e - s);
    TaggedNone(ann, b, s, tag);
    a := TagChunk(ann, b, k + 1, s, tag);
  }

  /** The state of the multi-chunk branch once the chunks before offset `Off(a, upto)` are
      tagged: the chunk holding n_end and what follows are untouched, and the offsets the end
      test reads. */
  ghost predicate Front(ann: seq<Chunk>, a: seq<Chunk>, s: nat, e: nat, tag: Tag, j: nat, q: nat,
                        annStart: nat, annEnd: nat, upto: nat)
  {
    1 <= j <= |ann| && annStart < annEnd <= |a| && |a| - annEnd == |ann| - j && upto <= |a| &&
    (j < |ann| ==> a[annEnd] == ann[j] && e < q + |ann[j].text|) &&
    Off(a, annEnd) == q == Off(ann, j) && q <= e &&
    Off(a, annEnd - 1) == Max(s, Off(ann, j - 1)) && s <= Off(a, annEnd - 1) &&
    s <= Off(a, upto) && Tagged(ann, a, s, Off(a, upto), tag)
  }

  /** What the first part of the multi-chunk branch leaves: every chunk before `annEnd - 1`
      from the beginning chunk on is tagged. */
  ghost predicate FrontDone(ann: seq<Chunk>, a: seq<Chunk>, s: nat, e: nat, tag: Tag, j: nat, q: nat, annStart: nat, annEnd: nat)
  {
    Front(ann, a, s, e, tag, j, q, annStart, annEnd, Max(annStart + 1, annEnd - 1))
  }

  /** The beginning chunk starts at n_start: it is tagged whole. */
  method TagBeginWhole(ann: seq<Chunk>, s: nat, e: nat, tag: Tag, k: nat, p: nat, j: nat, q: nat) returns (a: seq<Chunk>)
    requires k < j <= |ann| && p == Off(ann, k) == s && q == Off(ann, j) <= e
    requires Off(ann, k + 1) <= q && (k + 1 < j ==> Off(ann, k + 1) <= Off(ann, j - 1))
    requires j < |ann| ==> e < q + |ann[j].text|
    ensures Front(ann, a, s, e, tag, j, q, k, j, k + 1)
  {
    OffStep(ann, k);
    TaggedNone(ann, ann, s, tag);
    a := TagChunk(ann, ann, k, s, tag);
    SameOffsets(ann, a, j - 1);
    SameOffsets(ann, a, j);
  }

  /** n_start falls inside the beginning chunk: it is cut there and the second piece tagged. */
  method TagBeginCut(ann: seq<Chunk>, s: nat, e: nat, tag: Tag, k: nat, p: nat, j: nat, q: nat) returns (a: seq<Chunk>)
    requires k < j <= |ann| && p == Off(ann, k) < s < p + |ann[k].text| && q == Off(ann, j) <= e
    requires Off(ann, k + 1) <= q && (k + 1 < j ==> Off(ann, k + 1) <= Off(ann, j - 1))
    requires j < |ann| ==> e < q + |ann[j].text|
    ensures Front(ann, a, s, e, tag, j, q, k + 1, j + 1, k + 2)
  {
    OffStep(ann, k);
    var b := Cut(ann, k, s - p);
    TaggedNone(ann, b, s, tag);
    a := TagChunk(ann, b, k + 1, s, tag);
    SameOffsets(b, a, j);
    SameOffsets(b, a, j + 1);
    if j == k + 1 {
      assert Off(b, j) == s;
    } else {
      assert Off(b, j) == Off(ann, j - 1);
    }
    if j < |ann| {
      assert a[j + 1] == b[j + 1] == ann[j];
    }
  }

  /** Chunks `from` up to `to` tagged whole, one after the other: the tagged range grows
      to `Off(a, to)`, no offset changes and the chunks from `to` on are untouched. */
  method TagRun(ann: seq<Chunk>, a: seq<Chunk>, s: nat, tag: Tag, from: nat, to: nat) returns (b: seq<Chunk>)
    requires from <= to <= |a| && s <= Off(a, from) && Tagged(ann, a, s, Off(a, from), tag)
    ensures |b| == |a| && forall x :: to <= x < |a| ==> b[x] == a[x]
    ensures forall y :: 0 <= y < |a| ==> b[y].text == a[y].text
    ensures Tagged(ann, b, s, Off(b, to), tag)
  {
    b := a;
    var i := from;
    while i < to
      invariant from <= i <= to && |b| == |a| && forall x :: to <= x < |a| ==> b[x] == a[x]
      invariant forall y :: 0 <= y < |a| ==> b[y].text == a[y].text
      invariant s <= Off(b, i) && Tagged(ann, b, s, Off(b, i), tag)
    {
      OffStep(b, i);
      b := TagChunk(ann, b, i, s, tag);
      i := i + 1;
    }
  }

  /** The intermediate chunks `range(annstart_i + 1, annend_i - 1)`, each tagged whole. */
  method TagMiddle(ann: seq<Chunk>, a: seq<Chunk>, s: nat, e: nat, tag: Tag, j: nat, q: nat, annStart: nat, annEnd: nat)
    returns (b: seq<Chunk>)
    requires Front(ann, a, s, e, tag, j, q, annStart, annEnd, annStart + 1)
    ensures FrontDone(ann, b, s, e, tag, j, q, annStart, annEnd)
  {
    var to := Max(annStart + 1, annEnd - 1);
    assert s <= Off(a, to);
    b := TagRun(ann, a, s, tag, annStart + 1, to);
    SameOffsets(a, b, annEnd);
    SameOffsets(a, b, annEnd - 1);
    SameOffsets(a, b, to);
  }

  /** The beginning chunk (tagged whole, or cut at n_start with the second piece tagged) and
      the intermediate chunks. */
  method TagFront(ann: seq<Chunk>, s: nat, e: nat, tag: Tag, k: nat, p: nat, j: nat, q: nat)
    returns (a: seq<Chunk>, annStart: nat, annEnd: nat)
    requires k < j <= |ann| && p == Off(ann, k) <= s < p + |ann[k].text| && q == Off(ann, j) <= e
    requires Off(ann, k + 1) <= q && (k + 1 < j ==> Off(ann, k + 1) <= Off(ann, j - 1))
    requires j < |ann| ==> e < q + |ann[j].text|
    ensures FrontDone(ann, a, s, e, tag, j, q, annStart, annEnd)
  {
    if s <= p {
      a := TagBeginWhole(ann, s, e, tag, k, p, j, q);
      annStart, annEnd := k, j;
    } else {
      a := TagBeginCut(ann, s, e, tag, k, p, j, q);
      annStart, annEnd := k + 1, j + 1;
    }
    a := TagMiddle(ann, a, s, e, tag, j, q, annStart, annEnd);
  }

  /** A range that reaches past the end of the text may end anywhere past it. */
  lemma TaggedClip(ann: seq<Chunk>, a: seq<Chunk>, lo: int, hi: int, hi': int, tag: Tag)
    requires Tagged(ann, a, lo, hi, tag) && hi >= |Text(ann)| && hi' >= |Text(ann)|
    ensures Tagged(ann, a, lo, hi', tag)
  {
    ExpandLength(ann);
  }

  /** The chunk before the one holding n_end is tagged whole (unless it is the beginning
      chunk, already tagged): the range reaches the start of the chunk holding n_end. */
  method TagEndWhole(ann: seq<Chunk>, a: seq<Chunk>, s: nat, e: nat, tag: Tag, j: nat, q: nat, annStart: nat, annEnd: nat)
    returns (b: seq<Chunk>)
    requires FrontDone(ann, a, s, e, tag, j, q, annStart, annEnd)
    ensures Tagged(ann, b, s, q, tag)
    ensures |b| == |a| && forall x :: annEnd <= x < |a| ==> b[x] == a[x]
    ensures forall y :: 0 <= y < |a| ==> b[y].text == a[y].text
  {
    b := a;
    if annEnd - 1 != annStart {
      assert Max(annStart + 1, annEnd - 1) == annEnd - 1;
      b := TagChunk(ann, a, annEnd - 1, s, tag);
    } else {
      assert Max(annStart + 1, annEnd - 1) == annEnd;
    }
  }

  /** When the chunk holding n_end is the end of the list, the whole rest of the text is in
      the range. */
  lemma FrontReachesEnd(ann: seq<Chunk>, a: seq<Chunk>, s: nat, e: nat, tag: Tag, j: nat, q: nat, annStart: nat, annEnd: nat)
    requires FrontDone(ann, a, s, e, tag, j, q, annStart, annEnd) && annEnd == |a|
    ensures q == |Text(ann)|
  {
    OffEnds(a);
  }

  /** The end chunk as written: the test `n_end == prevend_i + len(ann[annend_i - 1][0])`
      compares n_end with the length of the chunk before, not with the start of the chunk
      holding n_end. */
  method TagEndAsWritten(ann: seq<Chunk>, a: seq<Chunk>, s: nat, e: nat, tag: Tag, j: nat, q: nat, annStart: nat, annEnd: nat)
    returns (b: seq<Chunk>)
    requires FrontDone(ann, a, s, e, tag, j, q, annStart, annEnd)
    ensures Tagged(ann, b, s, if j < |ann| && e - q == q - Max(s, Off(ann, j - 1)) then q else e, tag)
  {
    OffStep(a, annEnd - 1);
    if annEnd == |a| || e == q + |a[annEnd - 1].text| {
      b := TagEndWhole(ann, a, s, e, tag, j, q, annStart, annEnd);
      if annEnd == |a| {
        FrontReachesEnd(ann, a, s, e, tag, j, q, annStart, annEnd);
        TaggedClip(ann, b, s, q, e, tag);
      }
    } else {
      b := TagEndSplit(ann, a, s, e, tag, j, q, annStart, annEnd);
    }
  }

  /** The end chunk as intended: cut only when n_end falls strictly inside it. */
  method TagEnd(ann: seq<Chunk>, a: seq<Chunk>, s: nat, e: nat, tag: Tag, j: nat, q: nat, annStart: nat, annEnd: nat)
    returns (b: seq<Chunk>)
    requires FrontDone(ann, a, s, e, tag, j, q, annStart, annEnd)
    ensures Tagged(ann, b, s, e, tag)
  {
    if annEnd == |a| || e == q {
      b := TagEndWhole(ann, a, s, e, tag, j, q, annStart, annEnd);
      if annEnd == |a| {
        FrontReachesEnd(ann, a, s, e, tag, j, q, annStart, annEnd);
        TaggedClip(ann, b, s, q, e, tag);
      }
    } else {
      b := TagEndSplit(ann, a, s, e, tag, j, q, annStart, annEnd);
    }
  }

  /** The chunk holding n_end is cut at n_end; the chunk before it (unless it is the
      beginning chunk, already tagged) and the first piece are tagged. */
  method TagEndSplit(ann: seq<Chunk>, a: seq<Chunk>, s: nat, e: nat, tag: Tag, j: nat, q: nat, annStart: nat, annEnd: nat)
    returns (b: seq<Chunk>)
    requires FrontDone(ann, a, s, e, tag, j, q, annStart, annEnd) && annEnd < |a|
    ensures Tagged(ann, b, s, e, tag)
  {
    OffStep(a, annEnd - 1);
    var c := TagEndWhole(ann, a, s, e, tag, j, q, annStart, annEnd);
    SameOffsets(a, c, annEnd);
    assert c[annEnd] == ann[j];
    var d := Cut(c, annEnd, e - q);
    TaggedSame(ann, c, d, s, tag);
    b := TagChunk(ann, d, annEnd, s, tag);
  }

  /** `[e for e in ann if len(e[0]) != 0]` */
  function DropEmpty(a: seq<Chunk>): (r: seq<Chunk>)
    ensures NoEmpty(r) && |r| <= |a|
  {
    if a == [] then []
    else DropEmpty(a[..|a| - 1]) + (if a[|a| - 1].text == [] then [] else [a[|a| - 1]])
  }

  lemma {:induction false} DropEmptyKeeps(a: seq<Chunk>)
    ensures Text(DropEmpty(a)) == Text(a) && Expand(DropEmpty(a)) == Expand(a)
  {
    if a != [] {
      var init, c := a[..|a| - 1], a[|a| - 1];
      DropEmptyKeeps(init);
      Concat(DropEmpty(init), if c.text == [] then [] else [c]);
      Single(c);
    }
  }

  /** Where the as-written `annotation_overlap` stops tagging: at n_end, except when n_end
      falls inside a later chunk j at a distance from its start equal to the length of the
      piece before it; then the part of chunk j before n_end stays untagged. */
  function AsWrittenStop(ann: seq<Chunk>, s: nat, e: nat): int
  {
    var k := Reach(ann, 0, s);
    var j := Reach(ann, k, e);
    if k < j < |ann| && e - Off(ann, j) == Off(ann, j) - Max(s, Off(ann, j - 1)) then Off(ann, j) else e
  }

  /** Dropping empty chunks keeps what was tagged. */
  lemma TaggedSame(ann: seq<Chunk>, a: seq<Chunk>, b: seq<Chunk>, lo: int, tag: Tag)
    requires Text(b) == Text(a) && Expand(b) == Expand(a)
    ensures forall hi :: Tagged(ann, a, lo, hi, tag) ==> Tagged(ann, b, lo, hi, tag)
  {
  }

  /** `annotation_overlap(ann, n_start, n_end, n_details)` as written: ValueError when
      n_start > n_end; otherwise the text is unchanged, no chunk is empty, the label is only
      added and only inside [n_start, n_end), and it covers that range up to `AsWrittenStop`. */
  method OverlapAsWritten(ann: seq<Chunk>, s: nat, e: nat, tag: Tag) returns (r: Result<seq<Chunk>>)
    ensures s > e ==> r == Err(ValueError)
    ensures s <= e ==>
      r.Ok? && NoEmpty(r.value) && AsWrittenStop(ann, s, e) <= e && Tagged(ann, r.value, s, AsWrittenStop(ann, s, e), tag)
  {
    if s > e {
      return Err(ValueError);
    }
    var a := ann;
    var annStart, prevStart, annEnd, prevEnd := Locate(ann, s, e);
    ghost var stop := AsWrittenStop(ann, s, e);
    OffEnds(ann);
    TaggedNone(ann, ann, s, tag);
    if annStart >= |ann| {
      assert stop == e;
      TaggedClip(ann, ann, s, s, e, tag);
    } else if annStart == annEnd {
      assert stop == e;
      if e > 0 {
        a := TagWithin(ann, s, e, tag, annStart, prevStart);
      }
    } else {
      assert stop == if annEnd < |ann| && e - prevEnd == prevEnd - Max(s, Off(ann, annEnd - 1)) then prevEnd else e;
      var front, st, en := TagFront(ann, s, e, tag, annStart, prevStart, annEnd, prevEnd);
      a := TagEndAsWritten(ann, front, s, e, tag, annEnd, prevEnd, st, en);
    }
    DropEmptyKeeps(a);
    TaggedSame(ann, a, DropEmpty(a), s, tag);
    return Ok(DropEmpty(a));
  }

  /** `annotation_overlap` with the end test corrected to `n_end == prevend_i`: every
      character of [n_start, n_end) gains the label. */
  method Overlap(ann: seq<Chunk>, s: nat, e: nat, tag: Tag) returns (r: Result<seq<Chunk>>)
    ensures s > e ==> r == Err(ValueError)
    ensures s <= e ==> r.Ok? && NoEmpty(r.value) && Tagged(ann, r.value, s, e, tag)
  {
    if s > e {
      return Err(ValueError);
    }
    var a := ann;
    var annStart, prevStart, annEnd, prevEnd := Locate(ann, s, e);
    OffEnds(ann);
    TaggedNone(ann, ann, s, tag);
    if annStart >= |ann| {
      TaggedClip(ann, ann, s, s, e, tag);
    } else if annStart == annEnd {
      if e > 0 {
        a := TagWithin(ann, s, e, tag, annStart, prevStart);
      }
    } else {
      var front, st, en := TagFront(ann, s, e, tag, annStart, prevStart, annEnd, prevEnd);
      a := TagEnd(ann, front, s, e, tag, annEnd, prevEnd, st, en);
    }
    DropEmptyKeeps(a);
    TaggedSame(ann, a, DropEmpty(a), s, tag);
    return Ok(DropEmpty(a));
  }

  /** The smallest input showing the end-chunk test: `[["a", {}], ["bcd", {}]]` with the range
      [0, 2) leaves "b" (character 1) without the label. */
  lemma EndChunkLeftUntagged(r: seq<Chunk>, tag: Tag)
    requires Tagged([Chunk("a", {}), Chunk("bcd", {})], r, 0, AsWrittenStop([Chunk("a", {}), Chunk("bcd", {})], 0, 2), tag)
    ensures |Expand(r)| == 4 && tag !in Expand(r)[1]
  {
    var ann := [Chunk("a", {}), Chunk("bcd", {})];
    OffEnds(ann);
    OffStep(ann, 0);
    OffStep(ann, 1);
    assert Reach(ann, 0, 0) == 0;
    assert Reach(ann, 1, 2) == 1;
    assert Reach(ann, 0, 2) == 1;
    assert AsWrittenStop(ann, 0, 2) == 1;
    Around(ann, 1);
    assert ann[..1] == [Chunk("a", {})];
    Single(Chunk("a", {}));
  }

  // ----- `annotation_merge` -----

  lemma RepJoin(x: Chunk, y: Chunk)
    requires x.tags == y.tags
    ensures Rep(Chunk(x.text + y.text, x.tags)) == Rep(x) + Rep(y)
  {
  }

  /** r is what `annotation_merge` has made of the first i chunks: the same text and tags,
      no two neighbours with equal tag sets, and no empty chunk unless the input has one. */
  ghost predicate Merged(ann: seq<Chunk>, i: nat, r: seq<Chunk>)
    requires i <= |ann|
  {
    1 <= |r| <= i &&
    Text(r) == Text(ann[..i]) && Expand(r) == Expand(ann[..i]) &&
    (forall j :: 0 <= j < |r| - 1 ==> r[j].tags != r[j + 1].tags) &&
    (NoEmpty(ann) ==> NoEmpty(r))
  }

  /** Chunk i has the tags of the last merged chunk: joining its text on keeps `Merged`. */
  lemma MergeJoin(ann: seq<Chunk>, i: nat, r: seq<Chunk>)
    requires i < |ann| && Merged(ann, i, r) && ann[i].tags == r[|r| - 1].tags
    ensures Merged(ann, i + 1, r[..|r| - 1] + [Chunk(r[|r| - 1].text + ann[i].text, r[|r| - 1].tags)])
  {
    var last := r[|r| - 1];
    var joined := r[..|r| - 1] + [Chunk(last.text + ann[i].text, last.tags)];
    assert joined[..|joined| - 1] == r[..|r| - 1];
    assert ann[..i + 1] == ann[..i] + [ann[i]];
    assert (ann[..i] + [ann[i]])[..i] == ann[..i];
    RepJoin(last, ann[i]);
    assert forall j :: 0 <= j < |joined| - 1 ==> joined[j] == r[j];
  }

  /** Chunk i has other tags than the last merged chunk: appending it keeps `Merged`. */
  lemma MergeAppend(ann: seq<Chunk>, i: nat, r: seq<Chunk>)
    requires i < |ann| && Merged(ann, i, r) && ann[i].tags != r[|r| - 1].tags
    ensures Merged(ann, i + 1, r + [ann[i]])
  {
    assert (r + [ann[i]])[..|r|] == r;
    assert ann[..i + 1] == ann[..i] + [ann[i]];
    assert (ann[..i] + [ann[i]])[..i] == ann[..i];
  }

  /** `annotation_merge(ann)`: neighbours with equal tag sets are joined. The text and every
      character's tags are kept, the list does not grow, no two neighbours of the result
      have equal tag sets, and no empty chunk appears that the input did not have. */
  method Merge(ann: seq<Chunk>) returns (r: seq<Chunk>)
    ensures Text(r) == Text(ann) && Expand(r) == Expand(ann)
    ensures |r| <= |ann|
    ensures forall i :: 0 <= i < |r| - 1 ==> r[i].tags != r[i + 1].tags
    ensures NoEmpty(ann) ==> NoEmpty(r)
  {
    if |ann| == 0 {
      return ann;
    }
    r := [ann[0]];
    assert ann[..1] == [ann[0]];
    for i := 1 to |ann|
      invariant Merged(ann, i, r)
    {
      if ann[i].tags == r[|r| - 1].tags {
        MergeJoin(ann, i, r);
        r := r[..|r| - 1] + [Chunk(r[|r| - 1].text + ann[i].text, r[|r| - 1].tags)];
      } else {
        MergeAppend(ann, i, r);
        r := r + [ann[i]];
      }
    }
    assert ann[..|ann|] == ann;
  }

  /** No empty chunk and no two neighbours with equal tag sets: the maximal runs of equally
      tagged characters. */
  ghost predicate Maximal(a: seq<Chunk>)
  {
    NoEmpty(a) && forall i :: 0 <= i < |a| - 1 ==> a[i].tags != a[i + 1].tags
  }

  /** The last chunk of a non-empty list covers the end of the text, and every character in
      it carries its tags. */
  lemma LastChunkTags(a: seq<Chunk>)
    requires a != [] && a[|a| - 1].text != []
    ensures |Text(a)| == |Text(a[..|a| - 1])| + |a[|a| - 1].text|
    ensures |Expand(a)| == |Text(a)| && |Expand(a[..|a| - 1])| == |Text(a[..|a| - 1])|
    ensures forall p :: |Text(a[..|a| - 1])| <= p < |Text(a)| ==> Expand(a)[p] == a[|a| - 1].tags
    ensures forall p :: 0 <= p < |Text(a[..|a| - 1])| ==> Expand(a)[p] == Expand(a[..|a| - 1])[p]
  {
    ExpandLength(a);
    ExpandLength(a[..|a| - 1]);
  }

  /** In a maximal list of two chunks or more, the character just before the last chunk
      carries other tags than the last chunk. */
  lemma TagsBeforeLast(a: seq<Chunk>)
    requires |a| >= 2 && Maximal(a)
    ensures 1 <= |Text(a[..|a| - 1])| < |Expand(a)|
    ensures Expand(a)[|Text(a[..|a| - 1])| - 1] != a[|a| - 1].tags
  {
    var init := a[..|a| - 1];
    assert init[|init| - 1] == a[|a| - 2];
    LastChunkTags(a);
    LastChunkTags(init);
    var p := |Text(init)| - 1;
    assert Expand(a)[p] == Expand(init)[p] == a[|a| - 2].tags;
  }

  /** In a maximal list the last run is as long as it can be: no list with the same tags per
      character ends in a longer chunk. */
  lemma LastRunNotShorter(a: seq<Chunk>, b: seq<Chunk>)
    requires a != [] && b != [] && Maximal(a) && NoEmpty(b)
    requires |Text(a)| == |Text(b)| && Expand(a) == Expand(b)
    ensures |a[|a| - 1].text| >= |b[|b| - 1].text|
  {
    var x, y := a[|a| - 1], b[|b| - 1];
    var init := a[..|a| - 1];
    LastChunkTags(a);
    LastChunkTags(b);
    if |x.text| < |y.text| {
      assert y.tags == Expand(b)[|Text(b)| - 1] == x.tags;
      assert |a| >= 2;
      TagsBeforeLast(a);
      assert false;
    }
  }

  /** Two maximal lists with the same text and the same tags per character are equal, so
      `annotation_merge` of a list without empty chunks has exactly one possible result. */
  lemma {:induction false} MaximalUnique(a: seq<Chunk>, b: seq<Chunk>)
    requires Maximal(a) && Maximal(b) && Text(a) == Text(b) && Expand(a) == Expand(b)
    ensures a == b
    decreases |a|
  {
    if a == [] || b == [] {
      if a != [] {
        LastChunkTags(a);
      }
      if b != [] {
        LastChunkTags(b);
      }
      return;
    }
    LastRunNotShorter(a, b);
    LastRunNotShorter(b, a);
    var x, y := a[|a| - 1], b[|b| - 1];
    var ia, ib := a[..|a| - 1], b[..|b| - 1];
    LastChunkTags(a);
    LastChunkTags(b);
    assert Text(ia) == Text(a)[..|Text(ia)|] == Text(ib);
    assert x.text == Text(a)[|Text(ia)|..] == y.text;
    assert Expand(ia) == Expand(a)[..|Text(ia)|] == Expand(ib);
    assert x.tags == Expand(a)[|Text(a)| - 1] == y.tags;
    MaximalUnique(ia, ib);
    assert a == ia + [x] && b == ib + [y];
  }

  // ----- `annotation_render` -----

  /** One display item: the bare text of an untagged chunk, or the text with its label and
      colour. */
  datatype Rendered = Plain(text: string) | Styled(text: string, caption: string, color: string)

  /** `annotation_render(ann, func_text, func_color, max_count=3, render_presence=False,
      render_type=False)`: one item per chunk, in order. */
  function Render(ann: seq<Chunk>, funcText: set<Tag> -> string, funcColor: (set<Tag>, bool, bool, nat) -> string,
                  maxCount: nat := 3, renderPresence: bool := false, renderType: bool := false): (r: seq<Rendered>)
    ensures |r| == |ann|
    ensures forall i :: 0 <= i < |ann| ==>
      r[i].text == ann[i].text && (r[i].Plain? <==> ann[i].tags == {}) &&
      (r[i].Styled? ==> r[i].caption == funcText(ann[i].tags) &&
                        r[i].color == funcColor(ann[i].tags, renderPresence, renderType, maxCount))
  {
    seq(|ann|, i requires 0 <= i < |ann| =>
      if |ann[i].tags| == 0 then Plain(ann[i].text)
      else Styled(ann[i].text, funcText(ann[i].tags), funcColor(ann[i].tags, renderPresence, renderType, maxCount)))
  }

  /** The items' texts, in order. */
  function RenderedText(r: seq<Rendered>): string
  {
    if r == [] then [] else RenderedText(r[..|r| - 1]) + r[|r| - 1].text
  }

  /** Rendering shows the whole annotated text, in order, and nothing else. */
  lemma {:induction false} RenderKeepsText(ann: seq<Chunk>, funcText: set<Tag> -> string,
                                           funcColor: (set<Tag>, bool, bool, nat) -> string,
                                           maxCount: nat, renderPresence: bool, renderType: bool)
    ensures RenderedText(Render(ann, funcText, funcColor, maxCount, renderPresence, renderType)) == Text(ann)
  {
    if ann != [] {
      var init := ann[..|ann| - 1];
      RenderKeepsText(init, funcText, funcColor, maxCount, renderPresence, renderType);
      var r := Render(ann, funcText, funcColor, maxCount, renderPresence, renderType);
      assert r[..|r| - 1] == Render(init, funcText, funcColor, maxCount, renderPresence, renderType);
    }
  }
}
