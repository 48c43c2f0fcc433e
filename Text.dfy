/** Text normalisation of the n-gram engines: Python's `str.strip`, `str.split`, `str.lower`,
    deletion of `string.punctuation` and replacement of `\p{C}` characters by spaces.
    Character classes are those of Python on the Basic Latin and Latin-1 blocks. */
module Text {

  /** Python's `str.isspace` on Latin-1: space, \t \n \x0b \x0c \r, the separators
      \x1c-\x1f, NEXT LINE \x85 and NO-BREAK SPACE \xa0. */
  predicate IsSpace(c: char)
  {
    c == ' ' || (9 <= c as int <= 13) || (28 <= c as int <= 31) || c as int == 0x85 || c as int == 0xa0
  }

  /** `string.punctuation`: !"#$%&'()*+,-./:;<=>?@[\]^_`{|}~ */
  predicate IsPunct(c: char)
  {
    ('!' <= c <= '/') || (':' <= c <= '@') || ('[' <= c <= '`') || ('{' <= c <= '~')
  }

  /** The characters of category C (`\p{C}`) in Basic Latin and Latin-1: the controls
      (Cc) and the soft hyphen \xad (Cf). */
  predicate IsControl(c: char)
  {
    c as int < 32 || (127 <= c as int <= 159) || c as int == 0xad
  }

  /** The upper-case letters of Basic Latin and Latin-1 that `str.lower` maps one place
      down: A-Z, \xc0-\xd6 and \xd8-\xde. */
  predicate IsUpper(c: char)
  {
    ('A' <= c <= 'Z') || (0xc0 <= c as int <= 0xd6) || (0xd8 <= c as int <= 0xde)
  }

  function LowerChar(c: char): char
  {
    if IsUpper(c) then (c as int + 32) as char else c
  }

  function StripLeft(s: string): string
  {
    if s != [] && IsSpace(s[0]) then StripLeft(s[1..]) else s
  }

  function StripRight(s: string): string
  {
    if s != [] && IsSpace(s[|s| - 1]) then StripRight(s[..|s| - 1]) else s
  }

  /** `str.strip()`: a contiguous piece of s that neither starts nor ends with whitespace,
      and everything cut off is whitespace. */
  function Strip(s: string): (r: string)
    ensures r == [] || (!IsSpace(r[0]) && !IsSpace(r[|r| - 1]))
    ensures exists i, j :: 0 <= i <= j <= |s| && r == s[i..j]
              && (forall k :: 0 <= k < i ==> IsSpace(s[k]))
              && (forall k :: j <= k < |s| ==> IsSpace(s[k]))
  {
    StripSpec(s);
    StripRight(StripLeft(s))
  }

  lemma StripSpec(s: string)
    ensures var r := StripRight(StripLeft(s));
      && (r == [] || (!IsSpace(r[0]) && !IsSpace(r[|r| - 1])))
      && exists i, j :: 0 <= i <= j <= |s| && r == s[i..j]
           && (forall k :: 0 <= k < i ==> IsSpace(s[k]))
           && (forall k :: j <= k < |s| ==> IsSpace(s[k]))
  {
    var l := StripLeft(s);
    StripLeftSpec(s);
    StripRightSpec(l);
    var r := StripRight(l);
    var i := |s| - |l|;
    var j := i + |r|;
    assert r == s[i..j];
    assert forall k :: j <= k < |s| ==> s[k] == l[k - i];
  }

  lemma {:induction false} StripLeftSpec(s: string)
    ensures StripLeft(s) == [] || !IsSpace(StripLeft(s)[0])
    ensures |StripLeft(s)| <= |s| && StripLeft(s) == s[|s| - |StripLeft(s)|..]
    ensures forall k :: 0 <= k < |s| - |StripLeft(s)| ==> IsSpace(s[k])
  {
    if s != [] && IsSpace(s[0]) {
      StripLeftSpec(s[1..]);
    }
  }

  lemma {:induction false} StripRightSpec(s: string)
    ensures StripRight(s) == [] || !IsSpace(StripRight(s)[|StripRight(s)| - 1])
    ensures |StripRight(s)| <= |s| && StripRight(s) == s[..|StripRight(s)|]
    ensures forall k :: |StripRight(s)| <= k < |s| ==> IsSpace(s[k])
  {
    if s != [] && IsSpace(s[|s| - 1]) {
      StripRightSpec(s[..|s| - 1]);
    }
  }

  function Lower(s: string): string
  {
    seq(|s|, i requires 0 <= i < |s| => LowerChar(s[i]))
  }

  /** `s.translate(str.maketrans("", "", string.punctuation))` */
  function RemovePunct(s: string): string
  {
    if s == [] then []
    else (if IsPunct(s[0]) then [] else [s[0]]) + RemovePunct(s[1..])
  }

  /** `rx.sub(r"\p{C}", " ", s)` */
  function ReplaceControl(s: string): string
  {
    seq(|s|, i requires 0 <= i < |s| => if IsControl(s[i]) then ' ' else s[i])
  }

  /** The whitespace-free characters of s, in order. */
  function NonSpace(s: string): string
  {
    if s == [] then [] else (if IsSpace(s[0]) then [] else [s[0]]) + NonSpace(s[1..])
  }

  function Concat(ts: seq<string>): string
  {
    if ts == [] then [] else ts[0] + Concat(ts[1..])
  }

  function SplitFrom(s: string, cur: string): seq<string>
  {
    if s == [] then (if cur == [] then [] else [cur])
    else if IsSpace(s[0]) then (if cur == [] then [] else [cur]) + SplitFrom(s[1..], [])
    else SplitFrom(s[1..], cur + [s[0]])
  }

  /** `str.split()` with no separator: maximal runs of non-whitespace, in order. Between two
      tokens of s there is whitespace, so s is its tokens separated by whitespace gaps. */
  function Split(s: string): (tokens: seq<string>)
    ensures forall t :: t in tokens ==> t != [] && forall c :: c in t ==> !IsSpace(c)
    ensures Concat(tokens) == NonSpace(s)
    ensures exists gaps :: Separates(gaps, tokens) && Interleave(gaps, tokens) == s
  {
    SplitFromSpec(s, []);
    SplitFromGaps(s);
    SplitFrom(s, [])
  }

  /** A run of whitespace, possibly empty. */
  predicate Blank(w: string)
  {
    forall i :: 0 <= i < |w| ==> IsSpace(w[i])
  }

  /** A non-empty run of non-whitespace. */
  predicate IsWord(t: string)
  {
    t != [] && forall i :: 0 <= i < |t| ==> !IsSpace(t[i])
  }

  /** gaps[0] + tokens[0] + gaps[1] + ... + tokens[k - 1] + gaps[k] */
  function Interleave(gaps: seq<string>, tokens: seq<string>): string
    requires |gaps| == |tokens| + 1
  {
    if tokens == [] then gaps[0] else gaps[0] + tokens[0] + Interleave(gaps[1..], tokens[1..])
  }

  /** The gaps are whitespace, the tokens are words, and every gap between two tokens is
      non-empty: each token is then a maximal non-whitespace run of the interleaving. */
  predicate Separates(gaps: seq<string>, tokens: seq<string>)
  {
    && |gaps| == |tokens| + 1
    && (forall i :: 0 <= i < |gaps| ==> Blank(gaps[i]))
    && (forall i :: 0 <= i < |tokens| ==> IsWord(tokens[i]))
    && (forall i :: 0 < i < |tokens| ==> gaps[i] != [])
  }

  /** Splitting recovers the tokens of any whitespace-separated text, whatever its gaps: no
      other list of tokens separates s, so Split is the one decomposition `str.split()` gives. */
  lemma SplitInterleave(gaps: seq<string>, tokens: seq<string>)
    requires Separates(gaps, tokens)
    ensures Split(Interleave(gaps, tokens)) == tokens
  {
    SplitFromInterleave(gaps, tokens);
  }

  /** The pending token, if any, as the source list it is appended to. */
  function Flush(cur: string): seq<string>
  {
    if cur == [] then [] else [cur]
  }

  lemma {:induction false} SplitFromBlank(w: string, x: string, cur: string)
    requires Blank(w) && w != []
    ensures SplitFrom(w + x, cur) == Flush(cur) + SplitFrom(x, [])
  {
    assert (w + x)[0] == w[0] && (w + x)[1..] == w[1..] + x;
    if |w| > 1 {
      SplitFromBlank(w[1..], x, []);
    } else {
      assert w[1..] + x == x;
    }
  }

  lemma SplitFromSkip(w: string, x: string)
    requires Blank(w)
    ensures SplitFrom(w + x, []) == SplitFrom(x, [])
  {
    if w != [] {
      SplitFromBlank(w, x, []);
    } else {
      assert w + x == x;
    }
  }

  lemma {:induction false} SplitFromWord(t: string, x: string, cur: string)
    requires forall i :: 0 <= i < |t| ==> !IsSpace(t[i])
    ensures SplitFrom(t + x, cur) == SplitFrom(x, cur + t)
  {
    if t == [] {
      assert t + x == x && cur + t == cur;
    } else {
      assert (t + x)[0] == t[0] && (t + x)[1..] == t[1..] + x;
      SplitFromWord(t[1..], x, cur + [t[0]]);
      assert cur + [t[0]] + t[1..] == cur + t;
    }
  }

  lemma {:induction false} SplitFromInterleave(gaps: seq<string>, tokens: seq<string>)
    requires Separates(gaps, tokens)
    ensures SplitFrom(Interleave(gaps, tokens), []) == tokens
  {
    if tokens == [] {
      SplitFromSkip(gaps[0], []);
      assert gaps[0] + [] == gaps[0];
    } else {
      var rest := Interleave(gaps[1..], tokens[1..]);
      assert Interleave(gaps, tokens) == gaps[0] + (tokens[0] + rest);
      SplitFromSkip(gaps[0], tokens[0] + rest);
      SplitFromWord(tokens[0], rest, []);
      assert [] + tokens[0] == tokens[0];
      if tokens[1..] == [] {
        assert rest == gaps[1];
        assert Flush(tokens[0]) == [tokens[0]];
        if gaps[1] != [] {
          SplitFromBlank(gaps[1], [], tokens[0]);
          assert gaps[1] + [] == gaps[1];
        }
        assert tokens == [tokens[0]];
      } else {
        var inner := Interleave(gaps[2..], tokens[2..]);
        assert gaps[1..][1..] == gaps[2..] && tokens[1..][1..] == tokens[2..];
        assert rest == gaps[1] + (tokens[1] + inner);
        SplitFromBlank(gaps[1], tokens[1] + inner, tokens[0]);
        SplitFromSkip(gaps[1], tokens[1] + inner);
        SplitFromInterleave(gaps[1..], tokens[1..]);
        assert tokens == [tokens[0]] + tokens[1..];
      }
    }
  }

  /** How many characters of s, from the front, are whitespace. */
  function SpaceRun(s: string): (r: nat)
    ensures r <= |s| && Blank(s[..r]) && (r < |s| ==> !IsSpace(s[r]))
  {
    if s != [] && IsSpace(s[0]) then 1 + SpaceRun(s[1..]) else 0
  }

  /** How many characters of s, from the front, are not whitespace. */
  function WordRun(s: string): (r: nat)
    ensures r <= |s| && (forall i :: 0 <= i < r ==> !IsSpace(s[i])) && (r < |s| ==> IsSpace(s[r]))
  {
    if s != [] && !IsSpace(s[0]) then 1 + WordRun(s[1..]) else 0
  }

  /** Every text is its maximal non-whitespace runs separated by whitespace gaps; the first gap
      is the leading whitespace. */
  lemma {:induction false} Decompose(s: string) returns (gaps: seq<string>, tokens: seq<string>)
    ensures Separates(gaps, tokens) && Interleave(gaps, tokens) == s
    ensures gaps[0] == s[..SpaceRun(s)]
    decreases |s|
  {
    var a := SpaceRun(s);
    if a == |s| {
      assert s[..a] == s;
      return [s], [];
    }
    var u := s[a..];
    var b := WordRun(u);
    assert u[0] == s[a];
    var rest := u[b..];
    var g', t' := Decompose(rest);
    if rest != [] {
      assert rest[0] == u[b];
    }
    GapAfterWord(rest, g', t');
    gaps, tokens := SeparatesCons(s[..a], u[..b], g', t');
    CutTwice(s, a, b);
  }

  lemma CutTwice(s: string, a: nat, b: nat)
    requires a <= |s| && b <= |s| - a
    ensures s == s[..a] + (s[a..][..b] + s[a..][b..])
  {
  }

  /** After a maximal word the rest starts with whitespace, so its first gap is not empty
      unless no token follows. */
  lemma GapAfterWord(rest: string, g': seq<string>, t': seq<string>)
    requires Separates(g', t') && Interleave(g', t') == rest && g'[0] == rest[..SpaceRun(rest)]
    requires rest != [] ==> IsSpace(rest[0])
    ensures t' != [] ==> g'[0] != []
  {
    if t' != [] {
      assert |Interleave(g', t')| >= |t'[0]| > 0;
    }
  }

  /** One more token, and the gap before it, in front of a separated text. */
  lemma SeparatesCons(g0: string, tok: string, g': seq<string>, t': seq<string>) returns (gaps: seq<string>, tokens: seq<string>)
    requires Blank(g0) && IsWord(tok) && Separates(g', t') && (t' != [] ==> g'[0] != [])
    ensures gaps == [g0] + g' && tokens == [tok] + t'
    ensures Separates(gaps, tokens) && gaps[0] == g0
    ensures Interleave(gaps, tokens) == g0 + (tok + Interleave(g', t'))
  {
    gaps := [g0] + g';
    tokens := [tok] + t';
    assert gaps[1..] == g' && tokens[1..] == t';
    assert forall i :: 0 < i < |gaps| ==> gaps[i] == g'[i - 1];
    assert forall i :: 0 < i < |tokens| ==> tokens[i] == t'[i - 1];
  }

  lemma SplitFromGaps(s: string)
    ensures exists gaps :: Separates(gaps, SplitFrom(s, [])) && Interleave(gaps, SplitFrom(s, [])) == s
  {
    var gaps, tokens := Decompose(s);
    SplitFromInterleave(gaps, tokens);
  }

  lemma ConcatAppend(a: seq<string>, b: seq<string>)
    ensures Concat(a + b) == Concat(a) + Concat(b)
  {
    if a != [] {
      assert (a + b)[1..] == a[1..] + b;
      ConcatAppend(a[1..], b);
    } else {
      assert a + b == b;
    }
  }

  lemma {:induction false} SplitFromSpec(s: string, cur: string)
    requires forall c :: c in cur ==> !IsSpace(c)
    ensures forall t :: t in SplitFrom(s, cur) ==> t != [] && forall c :: c in t ==> !IsSpace(c)
    ensures Concat(SplitFrom(s, cur)) == cur + NonSpace(s)
  {
    if s == [] {
      assert Concat([cur]) == cur + Concat([]);
    } else if IsSpace(s[0]) {
      SplitFromSpec(s[1..], []);
      var head: seq<string> := if cur == [] then [] else [cur];
      var rest := SplitFrom(s[1..], []);
      assert SplitFrom(s, cur) == head + rest;
      ConcatAppend(head, rest);
      assert Concat(head) == cur by {
        if cur != [] {
          assert head[1..] == [];
        }
      }
      assert NonSpace(s) == NonSpace(s[1..]);
    } else {
      var cur' := cur + [s[0]];
      assert forall c :: c in cur' ==> c in cur || c == s[0];
      SplitFromSpec(s[1..], cur');
      assert SplitFrom(s, cur) == SplitFrom(s[1..], cur');
      assert NonSpace(s) == [s[0]] + NonSpace(s[1..]);
      assert cur' + NonSpace(s[1..]) == cur + NonSpace(s);
    }
  }

  /** `doc.strip().split()`: the same tokens as `doc.split()`, since stripping removes only
      whitespace. */
  function Words(doc: string): (tokens: seq<string>)
    ensures tokens == Split(doc)
    ensures forall t :: t in tokens ==> t != [] && forall c :: c in t ==> !IsSpace(c)
    ensures Concat(tokens) == NonSpace(doc)
  {
    StripNonSpace(doc);
    SplitStrip(doc);
    Split(Strip(doc))
  }

  /** Stripping first does not change the tokens: `s.strip().split() == s.split()`. */
  lemma SplitStrip(s: string)
    ensures Split(Strip(s)) == Split(s)
  {
    SplitFromStripRight(StripLeft(s));
    SplitFromStripLeft(s);
  }

  lemma {:induction false} SplitFromStripLeft(s: string)
    ensures SplitFrom(StripLeft(s), []) == SplitFrom(s, [])
  {
    if s != [] && IsSpace(s[0]) {
      SplitFromStripLeft(s[1..]);
    }
  }

  lemma {:induction false} SplitFromStripRight(s: string)
    ensures SplitFrom(StripRight(s), []) == SplitFrom(s, [])
  {
    if s != [] && IsSpace(s[|s| - 1]) {
      var init := s[..|s| - 1];
      SplitFromStripRight(init);
      SplitFromTrailing(init, s[|s| - 1], []);
      assert s == init + [s[|s| - 1]];
    }
  }

  /** A trailing whitespace character only ends the pending token. */
  lemma {:induction false} SplitFromTrailing(x: string, c: char, cur: string)
    requires IsSpace(c)
    ensures SplitFrom(x + [c], cur) == SplitFrom(x, cur)
  {
    if x == [] {
      assert x + [c] == [c] && [c][1..] == [];
    } else {
      assert (x + [c])[0] == x[0] && (x + [c])[1..] == x[1..] + [c];
      if IsSpace(x[0]) {
        SplitFromTrailing(x[1..], c, []);
      } else {
        SplitFromTrailing(x[1..], c, cur + [x[0]]);
      }
    }
  }

  /** The `preprocess` of ngram/ngram_lookup.py, ngram_lookup.py and
      sumtool/ngram/ngram_lookup.py: strip, lowercase, delete punctuation, replace control
      characters by spaces; the result is a string. */
  function Preprocess(text: string): (out: string)
    ensures |out| <= |text|
    ensures forall c :: c in out ==> !IsPunct(c) && !IsUpper(c) && !IsControl(c)
    ensures exists pos :: Picks(Strip(text), pos, out)
  {
    CleanChars(Strip(text));
    CleanPicks(Strip(text));
    ReplaceControl(RemovePunct(Lower(Strip(text))))
  }

  /** What cleaning makes of one kept character: a `\p{C}` character becomes a space, any
      other is lower-cased. */
  function CleanChar(c: char): char
  {
    if IsControl(c) then ' ' else LowerChar(c)
  }

  /** out is s with its punctuation deleted and every other character cleaned: pos lists, in
      increasing order, exactly the positions of s that do not hold punctuation, and out[i]
      is the cleaned character at pos[i]. */
  ghost predicate Picks(s: string, pos: seq<nat>, out: string)
  {
    && |pos| == |out|
    && (forall i :: 0 <= i < |pos| ==> pos[i] < |s| && out[i] == CleanChar(s[pos[i]]))
    && (forall i, j :: 0 <= i < j < |pos| ==> pos[i] < pos[j])
    && (forall k :: 0 <= k < |s| ==> (!IsPunct(s[k]) <==> k in pos))
  }

  /** pos lists, in increasing order, exactly the positions of s that do not hold
      punctuation, and r holds the characters at those positions. */
  ghost predicate Keeps(s: string, pos: seq<nat>, r: string)
  {
    && |pos| == |r|
    && (forall i :: 0 <= i < |pos| ==> pos[i] < |s| && r[i] == s[pos[i]])
    && (forall i, j :: 0 <= i < j < |pos| ==> pos[i] < pos[j])
    && (forall k :: 0 <= k < |s| ==> (!IsPunct(s[k]) <==> k in pos))
  }

  /** The positions `translate` keeps: RemovePunct is the subsequence of the
      non-punctuation characters. */
  lemma {:induction false} RemovePunctPositions(s: string) returns (pos: seq<nat>)
    ensures Keeps(s, pos, RemovePunct(s))
  {
    if s == [] {
      return [];
    }
    var tail := RemovePunctPositions(s[1..]);
    pos := KeepsCons(s, tail, RemovePunct(s[1..]));
  }

  lemma KeepsCons(s: string, tail: seq<nat>, r: string) returns (pos: seq<nat>)
    requires s != [] && Keeps(s[1..], tail, r)
    ensures Keeps(s, pos, (if IsPunct(s[0]) then [] else [s[0]]) + r)
  {
    KeepsShift(s, tail, r);
    if IsPunct(s[0]) {
      pos := Shift(tail);
      assert [] + r == r;
    } else {
      pos := KeepsFirst(s, Shift(tail), r);
    }
  }

  /** A kept first character goes in front at position 0. */
  lemma KeepsFirst(s: string, shifted: seq<nat>, r: string) returns (pos: seq<nat>)
    requires s != [] && !IsPunct(s[0]) && |shifted| == |r| && 0 !in shifted
    requires forall i :: 0 <= i < |r| ==> shifted[i] < |s| && r[i] == s[shifted[i]]
    requires forall i, j :: 0 <= i < j < |r| ==> shifted[i] < shifted[j]
    requires forall k :: 1 <= k < |s| ==> (!IsPunct(s[k]) <==> k in shifted)
    ensures Keeps(s, pos, [s[0]] + r)
  {
    pos := [0] + shifted;
    var r' := [s[0]] + r;
    forall i | 0 <= i < |pos|
      ensures pos[i] < |s| && r'[i] == s[pos[i]]
    {
      if i > 0 {
        assert pos[i] == shifted[i - 1] && r'[i] == r[i - 1];
      }
    }
    forall i, j | 0 <= i < j < |pos|
      ensures pos[i] < pos[j]
    {
      assert pos[j] == shifted[j - 1];
      if i == 0 {
        assert shifted[j - 1] in shifted;
      } else {
        assert pos[i] == shifted[i - 1];
      }
    }
    forall k | 0 <= k < |s|
      ensures !IsPunct(s[k]) <==> k in pos
    {
      if k > 0 {
        if k in shifted {
          var i :| 0 <= i < |shifted| && shifted[i] == k;
          assert pos[i + 1] == k;
        }
        if k in pos {
          var i :| 0 <= i < |pos| && pos[i] == k;
          assert shifted[i - 1] == k;
        }
      }
    }
  }

  /** The kept positions of s[1..], one further on, are those of s after its first. */
  lemma KeepsShift(s: string, tail: seq<nat>, r: string)
    requires s != [] && Keeps(s[1..], tail, r)
    ensures |Shift(tail)| == |r| && 0 !in Shift(tail)
    ensures forall i :: 0 <= i < |r| ==> Shift(tail)[i] < |s| && r[i] == s[Shift(tail)[i]]
    ensures forall i, j :: 0 <= i < j < |r| ==> Shift(tail)[i] < Shift(tail)[j]
    ensures forall k :: 1 <= k < |s| ==> (!IsPunct(s[k]) <==> k in Shift(tail))
  {
    var shifted := Shift(tail);
    ShiftMembers(tail);
    forall k | 1 <= k < |s|
      ensures !IsPunct(s[k]) <==> k in shifted
    {
      assert s[k] == s[1..][k - 1];
    }
  }

  /** Every position one further on. */
  function Shift(ps: seq<nat>): (r: seq<nat>)
    ensures |r| == |ps| && (forall i :: 0 <= i < |r| ==> r[i] == ps[i] + 1)
  {
    seq(|ps|, i requires 0 <= i < |ps| => ps[i] + 1)
  }

  /** The shifted positions are exactly the successors of the old ones. */
  lemma ShiftMembers(ps: seq<nat>)
    ensures 0 !in Shift(ps) && forall k :: k in Shift(ps) <==> k >= 1 && k - 1 in ps
  {
    var r := Shift(ps);
    forall k
      ensures k in r <==> k >= 1 && k - 1 in ps
    {
      if k in r {
        var i :| 0 <= i < |r| && r[i] == k;
        assert ps[i] == k - 1;
      }
      if k >= 1 && k - 1 in ps {
        var i :| 0 <= i < |ps| && ps[i] == k - 1;
        assert r[i] == k;
      }
    }
  }

  lemma CleanPicks(s: string)
    ensures exists pos :: Picks(s, pos, ReplaceControl(RemovePunct(Lower(s))))
  {
    var l := Lower(s);
    var pos := RemovePunctPositions(l);
    var out := ReplaceControl(RemovePunct(l));
    assert forall k :: 0 <= k < |s| ==> IsPunct(l[k]) == IsPunct(s[k]);
    assert forall i :: 0 <= i < |pos| ==> out[i] == CleanChar(s[pos[i]]) by {
      forall i | 0 <= i < |pos|
        ensures out[i] == CleanChar(s[pos[i]])
      {
        assert RemovePunct(l)[i] == l[pos[i]] == LowerChar(s[pos[i]]);
      }
    }
    assert Picks(s, pos, out);
  }

  lemma {:induction false} RemovePunctSpec(s: string)
    ensures |RemovePunct(s)| <= |s|
    ensures forall c :: c in RemovePunct(s) ==> c in s && !IsPunct(c)
  {
    if s != [] {
      RemovePunctSpec(s[1..]);
    }
  }

  lemma CleanChars(s: string)
    ensures |ReplaceControl(RemovePunct(Lower(s)))| <= |s|
    ensures forall c :: c in ReplaceControl(RemovePunct(Lower(s))) ==>
              !IsPunct(c) && !IsUpper(c) && !IsControl(c)
  {
    var l := Lower(s);
    RemovePunctSpec(l);
    var p := RemovePunct(l);
    forall c | c in ReplaceControl(p)
      ensures !IsPunct(c) && !IsUpper(c) && !IsControl(c)
    {
      var i :| 0 <= i < |p| && ReplaceControl(p)[i] == c;
      assert p[i] in p;
    }
  }

  /** The `preprocess` of interface/backend/ngram/ngram_lookup.py: the same cleaning, then
      `strip().split()`. Every token is non-empty, lower-case, and free of whitespace,
      punctuation and control characters; together the tokens are exactly the non-blank
      characters of the cleaned text. */
  function PreprocessTokens(text: string): (tokens: seq<string>)
    ensures forall t :: t in tokens ==> t != [] && forall c :: c in t ==>
              !IsSpace(c) && !IsPunct(c) && !IsUpper(c) && !IsControl(c)
    ensures Concat(tokens) == NonSpace(Preprocess(text))
    ensures tokens == Split(Preprocess(text))
  {
    var clean := Preprocess(text);
    var tokens := Split(Strip(clean));
    StripNonSpace(clean);
    SplitStrip(clean);
    assert forall t, c :: t in tokens && c in t ==> c in Concat(tokens) by {
      forall t, c | t in tokens && c in t
        ensures c in Concat(tokens)
      {
        ConcatMember(tokens, t, c);
      }
    }
    NonSpaceSub(clean);
    tokens
  }

  lemma {:induction false} ConcatMember(ts: seq<string>, t: string, c: char)
    requires t in ts && c in t
    ensures c in Concat(ts)
  {
    if ts[0] != t {
      ConcatMember(ts[1..], t, c);
    }
  }

  lemma {:induction false} NonSpaceSub(s: string)
    ensures forall c :: c in NonSpace(s) ==> c in s
  {
    if s != [] {
      NonSpaceSub(s[1..]);
    }
  }

  lemma {:induction false} NonSpaceAppend(a: string, b: string)
    ensures NonSpace(a + b) == NonSpace(a) + NonSpace(b)
  {
    if a != [] {
      assert (a + b)[1..] == a[1..] + b;
      assert (a + b)[0] == a[0];
      NonSpaceAppend(a[1..], b);
    } else {
      assert a + b == b;
    }
  }

  /** Stripping removes only whitespace. */
  lemma StripNonSpace(s: string)
    ensures NonSpace(Strip(s)) == NonSpace(s)
  {
    StripLeftNonSpace(s);
    StripRightNonSpace(StripLeft(s));
  }

  lemma {:induction false} StripLeftNonSpace(s: string)
    ensures NonSpace(StripLeft(s)) == NonSpace(s)
  {
    if s != [] && IsSpace(s[0]) {
      StripLeftNonSpace(s[1..]);
    }
  }

  lemma {:induction false} StripRightNonSpace(s: string)
    ensures NonSpace(StripRight(s)) == NonSpace(s)
  {
    if s != [] && IsSpace(s[|s| - 1]) {
      var init := s[..|s| - 1];
      StripRightNonSpace(init);
      assert s == init + [s[|s| - 1]];
      NonSpaceAppend(init, [s[|s| - 1]]);
    }
  }
}
