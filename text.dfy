/**
 * The string operations behind header normalisation: Python's notion of
 * whitespace (`str.isspace`, which is also what `\s` matches in a `str`
 * pattern), `str.replace("\n", " ")`, `str.strip()`, `re.sub(r"\s+", " ", s)`
 * and an ASCII `str.lower()`.
 */
module Text {

  /** The characters for which Python's `str.isspace()` holds. */
  predicate IsSpace(c: char) {
    || c == ' ' || c == '\t' || c == '\n' || c == '\r' || c == '\U{B}' || c == '\U{C}'
    || ('\U{1C}' <= c <= '\U{1F}') || c == '\U{85}' || c == '\U{A0}' || c == '\U{1680}'
    || ('\U{2000}' <= c <= '\U{200A}') || c == '\U{2028}' || c == '\U{2029}'
    || c == '\U{202F}' || c == '\U{205F}' || c == '\U{3000}'
  }

  function LowerChar(c: char): (d: char)
    ensures 'A' <= c <= 'Z' ==> d as int == c as int + 32
    ensures !('A' <= c <= 'Z') ==> d == c
  {
    if 'A' <= c <= 'Z' then (c as int + 32) as char else c
  }

  /** `str.lower()` on the ASCII letters. */
  function Lower(s: string): (r: string)
    ensures |r| == |s|
    ensures forall i :: 0 <= i < |s| ==> r[i] == LowerChar(s[i])
  {
    seq(|s|, i requires 0 <= i < |s| => LowerChar(s[i]))
  }

  predicate StartsWith(s: string, prefix: string) {
    |prefix| <= |s| && s[..|prefix|] == prefix
  }

  predicate EndsWith(s: string, suffix: string) {
    |suffix| <= |s| && s[|s| - |suffix|..] == suffix
  }

  /** `s.replace("\n", " ")`. */
  function ReplaceNewlines(s: string): (r: string)
    ensures |r| == |s|
    ensures forall i :: 0 <= i < |s| ==> r[i] == if s[i] == '\n' then ' ' else s[i]
  {
    seq(|s|, i requires 0 <= i < |s| => if s[i] == '\n' then ' ' else s[i])
  }

  /** Removes the leading whitespace: what remains is a suffix of `s` that starts with a non-space. */
  function StripLeft(s: string): (r: string)
    ensures |r| <= |s| && r == s[|s| - |r|..]
    ensures r == [] || !IsSpace(r[0])
    ensures forall i :: 0 <= i < |s| - |r| ==> IsSpace(s[i])
  {
    if |s| > 0 && IsSpace(s[0]) then StripLeft(s[1..]) else s
  }

  /** Removes the trailing whitespace: what remains is a prefix of `s` that ends with a non-space. */
  function StripRight(s: string): (r: string)
    ensures |r| <= |s| && r == s[..|r|]
    ensures r == [] || !IsSpace(r[|r| - 1])
    ensures forall i :: |r| <= i < |s| ==> IsSpace(s[i])
  {
    if |s| > 0 && IsSpace(s[|s| - 1]) then StripRight(s[..|s| - 1]) else s
  }

  /** `str.strip()`. */
  function Strip(s: string): (r: string)
    ensures r == [] || (!IsSpace(r[0]) && !IsSpace(r[|r| - 1]))
  {
    StripRight(StripLeft(s))
  }

  /** `re.sub(r"\s+", " ", s)`: every maximal run of whitespace becomes one space. */
  function Collapse(s: string): (r: string)
    decreases |s|
  {
    if |s| == 0 then []
    else if IsSpace(s[0]) then [' '] + Collapse(StripLeft(s[1..]))
    else [s[0]] + Collapse(s[1..])
  }

  /** The per-label text transformation of normalize_headers. */
  function NormalizeText(s: string): (r: string) {
    Collapse(Strip(ReplaceNewlines(s)))
  }

  /** Whitespace only as single spaces. */
  predicate SingleSpaced(s: string) {
    && (forall i :: 0 <= i < |s| && IsSpace(s[i]) ==> s[i] == ' ')
    && (forall i :: 0 <= i < |s| - 1 ==> !(s[i] == ' ' && s[i + 1] == ' '))
  }

  /** The shape of a normalised header: single-spaced, with no whitespace at either end. */
  predicate Canonical(s: string) {
    SingleSpaced(s) && (|s| > 0 ==> !IsSpace(s[0]) && !IsSpace(s[|s| - 1]))
  }

  /** The text with every whitespace character removed. */
  function RemoveSpaces(s: string): (r: string)
    ensures forall i :: 0 <= i < |r| ==> !IsSpace(r[i])
  {
    if |s| == 0 then [] else (if IsSpace(s[0]) then [] else [s[0]]) + RemoveSpaces(s[1..])
  }

  // ---------------------------------------------------------------------------
  // Collapse produces single-spaced text and keeps whether the ends are spaces
  // ---------------------------------------------------------------------------

  lemma {:induction false} CollapseShape(s: string)
    ensures SingleSpaced(Collapse(s))
    ensures |s| == 0 <==> |Collapse(s)| == 0
    ensures |s| > 0 ==> (IsSpace(Collapse(s)[0]) <==> IsSpace(s[0]))
    ensures |s| > 0 ==> (IsSpace(Collapse(s)[|Collapse(s)| - 1]) <==> IsSpace(s[|s| - 1]))
    decreases |s|
  {
    if |s| == 0 {
    } else if IsSpace(s[0]) {
      var rest := StripLeft(s[1..]);
      CollapseShape(rest);
      var c := Collapse(rest);
      assert Collapse(s) == [' '] + c;
      if |rest| == 0 {
        assert c == [];
        if |s| > 1 {
          assert IsSpace(s[1..][|s| - 2]);
        }
      } else {
        assert !IsSpace(c[0]);
        assert rest[|rest| - 1] == s[|s| - 1];
      }
    } else {
      CollapseShape(s[1..]);
      var c := Collapse(s[1..]);
      assert Collapse(s) == [s[0]] + c;
      if |s| > 1 {
        assert s[1..][|s| - 2] == s[|s| - 1];
      }
    }
  }

  /** Normalised text is canonical. */
  lemma NormalizeTextCanonical(s: string)
    ensures Canonical(NormalizeText(s))
  {
    var x := Strip(ReplaceNewlines(s));
    CollapseShape(x);
  }

  // ---------------------------------------------------------------------------
  // Canonical text is a fixed point, so normalisation is idempotent
  // ---------------------------------------------------------------------------

  lemma {:induction false} CollapseSingleSpaced(s: string)
    requires SingleSpaced(s)
    ensures Collapse(s) == s
    decreases |s|
  {
    if |s| > 0 {
      assert SingleSpaced(s[1..]) by {
        forall i | 0 <= i < |s[1..]| - 1 ensures !(s[1..][i] == ' ' && s[1..][i + 1] == ' ') {
          assert s[1..][i] == s[i + 1] && s[1..][i + 1] == s[i + 2];
        }
      }
      CollapseSingleSpaced(s[1..]);
      if IsSpace(s[0]) {
        assert |s| > 1 ==> !IsSpace(s[1]);
        assert StripLeft(s[1..]) == s[1..];
        assert Collapse(s) == [s[0]] + s[1..];
      }
    }
  }

  lemma CanonicalIsFixedPoint(s: string)
    requires Canonical(s)
    ensures NormalizeText(s) == s
  {
    assert ReplaceNewlines(s) == s;
    assert StripLeft(s) == s;
    assert StripRight(s) == s;
    CollapseSingleSpaced(s);
  }

  /** Normalising twice is normalising once. */
  lemma NormalizeTextIdempotent(s: string)
    ensures NormalizeText(NormalizeText(s)) == NormalizeText(s)
  {
    NormalizeTextCanonical(s);
    CanonicalIsFixedPoint(NormalizeText(s));
  }

  // ---------------------------------------------------------------------------
  // Normalisation changes whitespace only
  // ---------------------------------------------------------------------------

  lemma {:induction false} RemoveSpacesAppend(a: string, b: string)
    ensures RemoveSpaces(a + b) == RemoveSpaces(a) + RemoveSpaces(b)
    decreases |a|
  {
    if |a| > 0 {
      assert (a + b)[1..] == a[1..] + b;
      RemoveSpacesAppend(a[1..], b);
    } else {
      assert a + b == b;
    }
  }

  lemma {:induction false} RemoveSpacesReplace(s: string)
    ensures RemoveSpaces(ReplaceNewlines(s)) == RemoveSpaces(s)
    decreases |s|
  {
    if |s| > 0 {
      assert ReplaceNewlines(s)[1..] == ReplaceNewlines(s[1..]);
      RemoveSpacesReplace(s[1..]);
    }
  }

  lemma {:induction false} RemoveSpacesStripLeft(s: string)
    ensures RemoveSpaces(StripLeft(s)) == RemoveSpaces(s)
    decreases |s|
  {
    if |s| > 0 && IsSpace(s[0]) {
      RemoveSpacesStripLeft(s[1..]);
    }
  }

  lemma {:induction false} RemoveSpacesStripRight(s: string)
    ensures RemoveSpaces(StripRight(s)) == RemoveSpaces(s)
    decreases |s|
  {
    if |s| > 0 && IsSpace(s[|s| - 1]) {
      var init := s[..|s| - 1];
      RemoveSpacesStripRight(init);
      assert s == init + [s[|s| - 1]];
      RemoveSpacesAppend(init, [s[|s| - 1]]);
      assert RemoveSpaces([s[|s| - 1]]) == [];
    }
  }

  lemma {:induction false} RemoveSpacesCollapse(s: string)
    ensures RemoveSpaces(Collapse(s)) == RemoveSpaces(s)
    decreases |s|
  {
    if |s| > 0 {
      if IsSpace(s[0]) {
        RemoveSpacesCollapse(StripLeft(s[1..]));
        RemoveSpacesStripLeft(s[1..]);
        RemoveSpacesAppend([' '], Collapse(StripLeft(s[1..])));
      } else {
        RemoveSpacesCollapse(s[1..]);
        RemoveSpacesAppend([s[0]], Collapse(s[1..]));
      }
    }
  }

  /** Normalisation keeps every non-whitespace character, in order, and nothing else. */
  lemma NormalizeTextKeepsText(s: string)
    ensures RemoveSpaces(NormalizeText(s)) == RemoveSpaces(s)
  {
    RemoveSpacesReplace(s);
    RemoveSpacesStripLeft(ReplaceNewlines(s));
    RemoveSpacesStripRight(StripLeft(ReplaceNewlines(s)));
    RemoveSpacesCollapse(Strip(ReplaceNewlines(s)));
  }

  // ---------------------------------------------------------------------------
  // Normalisation is " ".join(s.split()): words are kept, one space between
  // ---------------------------------------------------------------------------

  /** The longest prefix of `s` holding no whitespace. */
  function WordPrefix(s: string): (w: string)
    ensures |w| <= |s| && w == s[..|w|]
    ensures forall i :: 0 <= i < |w| ==> !IsSpace(w[i])
    ensures |w| < |s| ==> IsSpace(s[|w|])
    decreases |s|
  {
    if |s| == 0 || IsSpace(s[0]) then [] else [s[0]] + WordPrefix(s[1..])
  }

  /** `s.split()`: the maximal runs of non-whitespace characters, in order. */
  function Words(s: string): (ws: seq<string>)
    decreases |s|
  {
    var t := StripLeft(s);
    if |t| == 0 then []
    else
      var w := WordPrefix(t);
      [w] + Words(t[|w|..])
  }

  /** `" ".join(ws)`. */
  function JoinWords(ws: seq<string>): (r: string) {
    if |ws| == 0 then []
    else if |ws| == 1 then ws[0]
    else ws[0] + [' '] + JoinWords(ws[1..])
  }

  lemma JoinWordsCons(w: string, ws: seq<string>)
    requires |ws| > 0
    ensures JoinWords([w] + ws) == w + [' '] + JoinWords(ws)
  {
    assert ([w] + ws)[1..] == ws;
  }

  // Generic facts about sequences. They model nothing in the source: each is
  // stated on its own so that the proofs below, which carry the whitespace
  // predicate, do not have to rediscover it.

  /** Splitting the first character off a concatenation. */
  lemma TailOfAppend(x: string, y: string)
    requires |x| > 0
    ensures (x + y)[0] == x[0] && (x + y)[1..] == x[1..] + y
  {
  }

  lemma TakeAll(t: string, n: nat)
    requires n == |t|
    ensures t[..n] == t
  {
  }

  lemma AppendEmpty(a: string)
    ensures a + [] == a
  {
  }

  lemma DropAppend(t: string, y: string, k: nat)
    requires k <= |t|
    ensures (t + y)[k..] == t[k..] + y
  {
  }

  lemma AppendAssoc(a: string, w: string, b: string)
    ensures a + w + b == a + (w + b)
  {
  }

  lemma SplitTwo(t: string, i: nat)
    requires i <= |t|
    ensures t == t[..i] + t[i..]
  {
  }

  /** A text without whitespace passes through the collapse unchanged. */
  lemma {:induction false} CollapseNoSpace(a: string, b: string)
    requires forall i :: 0 <= i < |a| ==> !IsSpace(a[i])
    ensures Collapse(a + b) == a + Collapse(b)
    decreases |a|
  {
    if |a| > 0 {
      TailOfAppend(a, b);
      CollapseNoSpace(a[1..], b);
      assert a == [a[0]] + a[1..];
    } else {
      assert a + b == b;
    }
  }

  /** Stripping a leading run of whitespace up to a non-space leaves exactly what follows it. */
  lemma {:induction false} StripLeftRun(w: string, b: string)
    requires forall i :: 0 <= i < |w| ==> IsSpace(w[i])
    requires b == [] || !IsSpace(b[0])
    ensures StripLeft(w + b) == b
    decreases |w|
  {
    if |w| > 0 {
      TailOfAppend(w, b);
      StripLeftRun(w[1..], b);
    } else {
      assert w + b == b;
    }
  }

  /**
   * `re.sub(r"\s+", " ", s)` on a run: the whitespace between a word and the
   * next non-space becomes exactly one space, and the word is kept.
   */
  lemma CollapseRun(a: string, w: string, b: string)
    requires forall i :: 0 <= i < |a| ==> !IsSpace(a[i])
    requires |w| > 0 && forall i :: 0 <= i < |w| ==> IsSpace(w[i])
    requires b == [] || !IsSpace(b[0])
    ensures Collapse(a + w + b) == a + [' '] + Collapse(b)
  {
    var wb := w + b;
    AppendAssoc(a, w, b);
    CollapseNoSpace(a, wb);
    TailOfAppend(w, b);
    StripLeftRun(w[1..], b);
    assert Collapse(wb) == [' '] + Collapse(b);
    AppendAssoc(a, [' '], Collapse(b));
  }

  lemma StripLeftStripped(s: string)
    requires s == [] || !IsSpace(s[0])
    ensures StripLeft(s) == s
  {
  }

  /** Leading whitespace does not change the words. */
  lemma WordsStripLeft(s: string)
    ensures Words(StripLeft(s)) == Words(s)
  {
    StripLeftStripped(StripLeft(s));
  }

  /** A text that is one word: its words are itself, and the collapse keeps it. */
  lemma SingleWord(t: string)
    requires |t| > 0 && |WordPrefix(t)| == |t|
    ensures Words(t) == [t] && Collapse(t) == t
  {
    TakeAll(t, |t|);
    assert WordPrefix(t) == t;
    StripLeftStripped(t);
    assert t[|t|..] == [];
    CollapseNoSpace(t, []);
    AppendEmpty(t);
  }

  /**
   * A text with no whitespace at either end and more than one word: its first
   * word, one space for the whitespace run, and the text `b` after that run.
   */
  lemma WordThenRest(t: string) returns (b: string)
    requires |t| > 0 && !IsSpace(t[0]) && !IsSpace(t[|t| - 1]) && |WordPrefix(t)| < |t|
    ensures 0 < |b| < |t| && !IsSpace(b[0]) && !IsSpace(b[|b| - 1])
    ensures Words(t) == [WordPrefix(t)] + Words(b)
    ensures Collapse(t) == WordPrefix(t) + [' '] + Collapse(b)
  {
    var w := WordPrefix(t);
    var rest := t[|w|..];
    b := StripLeft(rest);
    assert Words(t) == [w] + Words(b) by {
      StripLeftStripped(t);
      assert Words(t) == [w] + Words(rest);
      WordsStripLeft(rest);
    }
    assert 0 < |b| && b[|b| - 1] == t[|t| - 1] by {
      assert rest[|rest| - 1] == t[|t| - 1];
    }
    assert Collapse(t) == w + [' '] + Collapse(b) by {
      SplitTwo(t, |w|);
      CollapseAfterWord(w, rest);
    }
  }

  /** A word followed by whitespace: the word, one space, and the collapse of what follows the whitespace. */
  lemma CollapseAfterWord(w: string, rest: string)
    requires forall i :: 0 <= i < |w| ==> !IsSpace(w[i])
    requires |rest| > 0 && IsSpace(rest[0])
    ensures Collapse(w + rest) == w + [' '] + Collapse(StripLeft(rest))
  {
    CollapseNoSpace(w, rest);
    assert Collapse(rest) == [' '] + Collapse(StripLeft(rest[1..]));
    AppendAssoc(w, [' '], Collapse(StripLeft(rest)));
  }

  /** On a text with no whitespace at either end, the collapse joins the words with single spaces. */
  lemma {:induction false} CollapseWords(t: string)
    requires |t| == 0 || (!IsSpace(t[0]) && !IsSpace(t[|t| - 1]))
    ensures Collapse(t) == JoinWords(Words(t))
    decreases |t|
  {
    if |t| > 0 {
      if |WordPrefix(t)| == |t| {
        SingleWord(t);
      } else {
        var b := WordThenRest(t);
        CollapseWords(b);
        StripLeftStripped(b);
        JoinWordsCons(WordPrefix(t), Words(b));
      }
    }
  }

  /** Stripping `x + y` strips `y` too when `x` is all whitespace, and nothing of `y` otherwise. */
  lemma {:induction false} StripLeftAppend(x: string, y: string)
    ensures StripLeft(x + y) == if StripLeft(x) == [] then StripLeft(y) else StripLeft(x) + y
    decreases |x|
  {
    if |x| == 0 {
      assert x + y == y;
    } else {
      TailOfAppend(x, y);
      StripLeftAppend(x[1..], y);
    }
  }

  /** A word that ends inside `t`, or at a space after it, is unaffected by what follows. */
  lemma {:induction false} WordPrefixAppend(t: string, y: string)
    requires |WordPrefix(t)| < |t| || y == [] || IsSpace(y[0])
    ensures WordPrefix(t + y) == WordPrefix(t)
    decreases |t|
  {
    if |t| == 0 {
      assert t + y == y;
    } else {
      TailOfAppend(t, y);
      if !IsSpace(t[0]) {
        WordPrefixAppend(t[1..], y);
      }
    }
  }

  /** Trailing whitespace does not change the words. */
  lemma {:induction false} WordsAppendSpace(x: string, sp: string)
    requires forall i :: 0 <= i < |sp| ==> IsSpace(sp[i])
    ensures Words(x + sp) == Words(x)
    decreases |x|
  {
    StripLeftAppend(x, sp);
    var t := StripLeft(x);
    if |t| == 0 {
      StripLeftRun(sp, []);
      assert sp + [] == sp;
    } else {
      var w := WordPrefix(t);
      WordPrefixAppend(t, sp);
      DropAppend(t, sp, |w|);
      WordsAppendSpace(t[|w|..], sp);
      assert Words(x + sp) == [w] + Words(t[|w|..] + sp);
    }
  }

  /** Same whitespace positions and the same characters elsewhere. */
  predicate SpaceAlike(x: string, y: string) {
    && |x| == |y|
    && forall i :: 0 <= i < |x| ==> (IsSpace(x[i]) <==> IsSpace(y[i])) && (!IsSpace(x[i]) ==> x[i] == y[i])
  }

  lemma AlikeDrop(x: string, y: string, k: nat)
    requires SpaceAlike(x, y) && k <= |x|
    ensures SpaceAlike(x[k..], y[k..])
  {
    forall i | 0 <= i < |x| - k
      ensures (IsSpace(x[k..][i]) <==> IsSpace(y[k..][i])) && (!IsSpace(x[k..][i]) ==> x[k..][i] == y[k..][i])
    {
      assert x[k..][i] == x[k + i] && y[k..][i] == y[k + i];
    }
  }

  lemma {:induction false} StripLeftAlike(x: string, y: string)
    requires SpaceAlike(x, y)
    ensures |StripLeft(x)| == |StripLeft(y)|
    decreases |x|
  {
    if |x| > 0 && IsSpace(x[0]) {
      AlikeDrop(x, y, 1);
      StripLeftAlike(x[1..], y[1..]);
    }
  }

  lemma {:induction false} WordPrefixAlike(x: string, y: string)
    requires SpaceAlike(x, y)
    ensures WordPrefix(x) == WordPrefix(y)
    decreases |x|
  {
    if |x| > 0 && !IsSpace(x[0]) {
      AlikeDrop(x, y, 1);
      WordPrefixAlike(x[1..], y[1..]);
    }
  }

  /** Texts alike up to which whitespace character stands where have the same words. */
  lemma {:induction false} WordsAlike(x: string, y: string)
    requires SpaceAlike(x, y)
    ensures Words(x) == Words(y)
    decreases |x|
  {
    StripLeftAlike(x, y);
    var tx := StripLeft(x);
    var ty := StripLeft(y);
    if |tx| > 0 {
      var k := |x| - |tx|;
      AlikeDrop(x, y, k);
      WordPrefixAlike(tx, ty);
      var w := WordPrefix(tx);
      AlikeDrop(tx, ty, |w|);
      WordsAlike(tx[|w|..], ty[|w|..]);
    }
  }

  /** Turning newlines into spaces does not change the words. */
  lemma WordsReplace(s: string)
    ensures Words(ReplaceNewlines(s)) == Words(s)
  {
    var x := ReplaceNewlines(s);
    assert SpaceAlike(s, x);
    WordsAlike(s, x);
  }

  /** Trailing whitespace does not change the words. */
  lemma WordsStripRight(y: string)
    ensures Words(StripRight(y)) == Words(y)
  {
    var z := StripRight(y);
    var sp := y[|z|..];
    assert forall i :: 0 <= i < |sp| ==> IsSpace(sp[i]) by {
      forall i | 0 <= i < |sp| ensures IsSpace(sp[i]) {
        assert sp[i] == y[|z| + i];
      }
    }
    SplitTwo(y, |z|);
    WordsAppendSpace(z, sp);
  }

  /** Stripping does not change the words. */
  lemma WordsStrip(x: string)
    ensures Words(Strip(x)) == Words(x)
  {
    WordsStripLeft(x);
    WordsStripRight(StripLeft(x));
  }

  /** A stripped text has no whitespace at either end, so its collapse joins its words. */
  lemma CollapseStripped(x: string)
    ensures Collapse(Strip(x)) == JoinWords(Words(Strip(x)))
  {
    var y := StripLeft(x);
    var z := StripRight(y);
    assert |z| == 0 || z[0] == y[0];
    CollapseWords(z);
  }

  /**
   * Header normalisation is `" ".join(s.split())`: the words of the label,
   * in order, separated by exactly one space each.
   */
  lemma NormalizeTextWords(s: string)
    ensures NormalizeText(s) == JoinWords(Words(s))
  {
    WordsReplace(s);
    WordsStrip(ReplaceNewlines(s));
    CollapseStripped(ReplaceNewlines(s));
  }
}
