/**
 Splitting text into whitespace-separated words and joining pieces with a
 separator: Python's `' '.join(s.split())`, JavaScript's `Array.join` and
 `String.split("\n")`.
 */
module Tokens {
  import opened Text

  predicate NoSpace(w: string)
  {
    forall i :: 0 <= i < |w| ==> !IsSpace(w[i])
  }

  /** Text in the shape `' '.join(words)` produces: no whitespace at either
      edge, and every whitespace character is a single space between two
      non-whitespace characters. */
  predicate NormalSpacing(s: string)
  {
    && NoEdgeSpace(s)
    && (forall i :: 0 <= i < |s| && IsSpace(s[i]) ==> s[i] == ' ')
    && !Contains(s, "  ")
  }

  /** The non-whitespace characters of `s`, in order. */
  function Squeeze(s: string): string
  {
    if |s| == 0 then ""
    else (if IsSpace(s[0]) then "" else [s[0]]) + Squeeze(s[1..])
  }

  /** Length of the run of non-whitespace characters that starts `s`. */
  function WordLen(s: string): (n: nat)
    ensures n <= |s|
    ensures forall i :: 0 <= i < n ==> !IsSpace(s[i])
    ensures n == |s| || IsSpace(s[n])
  {
    if |s| == 0 || IsSpace(s[0]) then 0 else 1 + WordLen(s[1..])
  }

  /** Python's `s.split()` with no argument: the maximal runs of
      non-whitespace characters, in order. */
  function Words(s: string): seq<string>
    decreases |s|
  {
    var t := LStrip(s);
    if |t| == 0 then []
    else
      var n := WordLen(t);
      [t[..n]] + Words(t[n..])
  }

  /** `sep.join(ws)`. */
  function Join(ws: seq<string>, sep: string): string
  {
    if |ws| == 0 then ""
    else if |ws| == 1 then ws[0]
    else ws[0] + sep + Join(ws[1..], sep)
  }

  /** Concatenation of all pieces, without separator. */
  function Concat(ws: seq<string>): string
  {
    if |ws| == 0 then "" else ws[0] + Concat(ws[1..])
  }

  /** `' '.join(s.split())`: runs of whitespace become one space and the
      edges lose theirs, while the non-whitespace text stays as it was. */
  function Collapse(s: string): string
  {
    Join(Words(s), " ")
  }

  /** `s.split("\n")`: the pieces between newline characters; always at least one. */
  function Lines(s: string): (ls: seq<string>)
    ensures |ls| > 0
    ensures forall i :: 0 <= i < |ls| ==> '\n' !in ls[i]
    decreases |s|
  {
    var n := FirstIndex(s, '\n');
    if n == |s| then [s] else [s[..n]] + Lines(s[n + 1..])
  }

  // ---------------------------------------------------------------------------
  // Squeeze

  lemma {:induction false} SqueezeAppend(a: string, b: string)
    ensures Squeeze(a + b) == Squeeze(a) + Squeeze(b)
    decreases |a|
  {
    if |a| == 0 {
      assert a + b == b;
    } else {
      assert (a + b)[1..] == a[1..] + b;
      SqueezeAppend(a[1..], b);
    }
  }

  lemma {:induction false} SqueezeSpace(w: string)
    requires AllSpace(w)
    ensures Squeeze(w) == ""
    decreases |w|
  {
    if |w| > 0 {
      SqueezeSpace(w[1..]);
    }
  }

  lemma {:induction false} SqueezeNoSpace(w: string)
    requires NoSpace(w)
    ensures Squeeze(w) == w
    decreases |w|
  {
    if |w| > 0 {
      SqueezeNoSpace(w[1..]);
    }
  }

  /** The words of `s` together hold exactly its non-whitespace characters. */
  lemma {:induction false} SqueezeWords(s: string)
    ensures Concat(Words(s)) == Squeeze(s)
    decreases |s|
  {
    var t := LStrip(s);
    var d := |s| - |t|;
    assert s == s[..d] + t;
    SqueezeAppend(s[..d], t);
    SqueezeSpace(s[..d]);
    if |t| > 0 {
      var n := WordLen(t);
      assert t == t[..n] + t[n..];
      SqueezeAppend(t[..n], t[n..]);
      SqueezeNoSpace(t[..n]);
      SqueezeWords(t[n..]);
    }
  }

  lemma NoSpaceNormal(w: string)
    requires NoSpace(w)
    ensures NormalSpacing(w)
  {
    forall i | 0 <= i < |w|
      ensures !OccursAt(w, "  ", i)
    {
      assert w[i] != "  "[0];
    }
  }

  /** A word, one space and text in normal spacing are in normal spacing. */
  lemma NormalCons(w: string, rest: string)
    requires |w| > 0 && NoSpace(w)
    requires |rest| > 0 && NormalSpacing(rest)
    ensures NormalSpacing(w + " " + rest)
  {
    var j := w + " " + rest;
    assert j[|j| - 1] == rest[|rest| - 1];
    forall i | 0 <= i < |j| && IsSpace(j[i])
      ensures j[i] == ' '
    {
      if i > |w| {
        assert j[i] == rest[i - |w| - 1];
      }
    }
    forall i | 0 <= i <= |j|
      ensures !OccursAt(j, "  ", i)
    {
      if i < |w| {
        assert j[i] == w[i];
        assert j[i] != "  "[0];
      } else if i == |w| {
        assert j[i + 1] == rest[0];
        assert j[i + 1] != "  "[1];
      } else if i + 2 <= |j| {
        assert j[i] == rest[i - |w| - 1] && j[i + 1] == rest[i - |w|];
        assert !OccursAt(rest, "  ", i - |w| - 1);
      }
    }
  }

  /** Joining non-empty words free of whitespace with single spaces gives text
      in normal spacing whose non-whitespace characters are the words'. */
  lemma {:induction false} JoinNormal(ws: seq<string>)
    requires forall i :: 0 <= i < |ws| ==> |ws[i]| > 0 && NoSpace(ws[i])
    ensures NormalSpacing(Join(ws, " "))
    ensures Squeeze(Join(ws, " ")) == Concat(ws)
    ensures |ws| > 0 ==> |Join(ws, " ")| > 0
    decreases |ws|
  {
    if |ws| == 1 {
      NoSpaceNormal(ws[0]);
      SqueezeNoSpace(ws[0]);
      assert Concat(ws) == ws[0] + Concat(ws[1..]);
    } else if |ws| > 1 {
      JoinNormal(ws[1..]);
      var w := ws[0];
      var rest := Join(ws[1..], " ");
      NormalCons(w, rest);
      assert Join(ws, " ") == w + " " + rest;
      SqueezeAppend(w + " ", rest);
      SqueezeAppend(w, " ");
      SqueezeNoSpace(w);
    }
  }

  // ---------------------------------------------------------------------------
  // Words and Collapse

  /** Every word is non-empty and free of whitespace. */
  lemma {:induction false} WordsShape(s: string)
    ensures forall i :: 0 <= i < |Words(s)| ==> |Words(s)[i]| > 0 && NoSpace(Words(s)[i])
    decreases |s|
  {
    var t := LStrip(s);
    if |t| > 0 {
      var n := WordLen(t);
      WordsShape(t[n..]);
      var w := t[..n];
      assert NoSpace(w) by {
        forall i | 0 <= i < |w| ensures !IsSpace(w[i]) {
          assert w[i] == t[i];
        }
      }
    }
  }

  /** The collapsed text is in normal spacing and keeps exactly the
      non-whitespace characters of the original, in order. */
  lemma CollapseSpec(s: string)
    ensures NormalSpacing(Collapse(s))
    ensures Squeeze(Collapse(s)) == Squeeze(s)
    ensures Words(Collapse(s)) == Words(s)
  {
    WordsShape(s);
    JoinNormal(Words(s));
    SqueezeWords(s);
    WordsJoin(Words(s));
  }

  /** Splitting words joined by single spaces gives back the words, provided
      each is non-empty and free of whitespace. */
  lemma {:induction false} WordsJoin(ws: seq<string>)
    requires forall i :: 0 <= i < |ws| ==> |ws[i]| > 0 && NoSpace(ws[i])
    ensures Words(Join(ws, " ")) == ws
    decreases |ws|
  {
    if |ws| == 0 {
      assert LStrip("") == "";
    } else if |ws| == 1 {
      var w := ws[0];
      WordLenUnique(w, |w|);
      WordsSingle(w);
    } else {
      var w, rest := ws[0], Join(ws[1..], " ");
      assert Join(ws, " ") == w + " " + rest;
      WordsSpaceCons(w, rest);
      WordsJoin(ws[1..]);
      assert ws == [w] + ws[1..];
    }
  }

  /** A word, one space and more text split into the word and the words of
      the rest. */
  lemma WordsSpaceCons(w: string, rest: string)
    requires |w| > 0 && NoSpace(w)
    ensures Words(w + " " + rest) == [w] + Words(rest)
  {
    var t := w + " " + rest;
    assert forall i :: 0 <= i < |w| ==> t[i] == w[i];
    assert t[|w|] == ' ';
    WordLenUnique(t, |w|);
    WordsCons(t, |w|);
    assert t[..|w|] == w && t[|w| + 1..] == rest;
  }

  lemma WordLenUnique(s: string, n: nat)
    requires n <= |s|
    requires forall i :: 0 <= i < n ==> !IsSpace(s[i])
    requires n == |s| || IsSpace(s[n])
    ensures WordLen(s) == n
  {
  }

  /** Leading whitespace does not change the words. */
  lemma WordsLeadingSpace(w: string, s: string)
    requires AllSpace(w)
    ensures Words(w + s) == Words(s)
  {
    LStripAppend(w, s);
  }

  /** Trailing whitespace does not change the words. */
  lemma {:induction false} WordsTrailingSpace(s: string, w: string)
    requires AllSpace(w)
    ensures Words(s + w) == Words(s)
    decreases |s|
  {
    LStripAppend(s, w);
    if AllSpace(s) {
      WordsAllSpace(s);
      assert AllSpace(s + w);
      WordsAllSpace(s + w);
    } else {
      var t := LStrip(s);
      var n := WordLen(t);
      FirstWord(s);
      FirstWord(s + w);
      SliceJoin(t, w, n);
      WordLenUnique(t + w, n);
      WordsTrailingSpace(t[n..], w);
    }
  }

  /** The words of text with a word in it: the first word, then the words
      after it. */
  lemma FirstWord(x: string)
    requires !AllSpace(x)
    ensures |LStrip(x)| <= |x| && |LStrip(x)| > 0 && WordLen(LStrip(x)) > 0
    ensures Words(x) == [LStrip(x)[..WordLen(LStrip(x))]] + Words(LStrip(x)[WordLen(LStrip(x))..])
  {
  }

  lemma SliceJoin(t: string, w: string, n: nat)
    requires n <= |t|
    ensures (t + w)[..n] == t[..n] && (t + w)[n..] == t[n..] + w
  {
  }

  lemma WordsAllSpace(s: string)
    requires AllSpace(s)
    ensures Words(s) == []
  {
    LStripAppend(s, "");
    assert s + "" == s;
  }

  lemma JoinCons(w: string, ws: seq<string>, sep: string)
    requires |ws| > 0
    ensures Join([w] + ws, sep) == w + sep + Join(ws, sep)
  {
    assert ([w] + ws)[1..] == ws;
  }

  /** In normal spacing, a whitespace character is a single space followed by
      more text in normal spacing. */
  lemma NormalRest(s: string, n: nat)
    requires NormalSpacing(s) && n < |s| && IsSpace(s[n])
    ensures s[n] == ' ' && n + 1 < |s| && !IsSpace(s[n + 1])
    ensures NormalSpacing(s[n + 1..])
  {
    assert n + 1 < |s|;
    DoubleSpace(s, n);
    SuffixContains(s, n + 1, "  ");
  }

  lemma DoubleSpace(s: string, n: nat)
    requires n + 1 < |s|
    ensures s[n] == ' ' && s[n + 1] == ' ' ==> OccursAt(s, "  ", n)
  {
  }

  lemma SuffixContains(s: string, m: nat, k: string)
    requires m <= |s|
    ensures Contains(s[m..], k) ==> Contains(s, k)
  {
    if Contains(s[m..], k) {
      var i :| 0 <= i <= |s[m..]| && OccursAt(s[m..], k, i);
      assert OccursAt(s, k, m + i);
    }
  }

  /** Splitting text that starts with a word: that word, then the words of
      what follows it. */
  lemma WordsStep(s: string)
    requires |s| > 0 && !IsSpace(s[0])
    ensures WordLen(s) > 0
    ensures Words(s) == [s[..WordLen(s)]] + Words(s[WordLen(s)..])
  {
    assert LeadLen(s) == 0;
  }

  lemma WordsAfterSpace(s: string, n: nat)
    requires n < |s| && IsSpace(s[n])
    ensures Words(s[n..]) == Words(s[n + 1..])
  {
    var rest := s[n + 1..];
    assert s[n..] == [s[n]] + rest;
    WordsLeadingSpace([s[n]], rest);
  }

  /** Text that is one word splits into just that word. */
  lemma WordsSingle(s: string)
    requires |s| > 0 && WordLen(s) == |s|
    ensures Words(s) == [s]
  {
    WordsStep(s);
    assert s[..|s|] == s;
    assert s[|s|..] == "";
  }

  /** The words of a word, a whitespace character and more text. */
  lemma WordsCons(s: string, n: nat)
    requires 0 < n < |s| && !IsSpace(s[0]) && WordLen(s) == n
    ensures Words(s) == [s[..n]] + Words(s[n + 1..])
  {
    WordsStep(s);
    WordsAfterSpace(s, n);
  }

  /** Collapsing a word, one space and already-collapsed text changes nothing. */
  lemma CollapseCons(s: string, w: string, rest: string)
    requires s == w + " " + rest && |rest| > 0
    requires Words(s) == [w] + Words(rest)
    requires Collapse(rest) == rest
    ensures Collapse(s) == s
  {
    var ws := Words(rest);
    JoinNonEmpty(ws, " ");
    JoinCons(w, ws, " ");
  }

  lemma JoinNonEmpty(ws: seq<string>, sep: string)
    requires |Join(ws, sep)| > 0
    ensures |ws| > 0
  {
  }

  /** Text already in normal spacing is its own collapsed form. */
  lemma {:induction false} CollapseIdentity(s: string)
    requires NormalSpacing(s)
    ensures Collapse(s) == s
    decreases |s|
  {
    if |s| > 0 {
      var n := WordLen(s);
      if n < |s| {
        NormalRest(s, n);
        CollapseIdentity(s[n + 1..]);
        CollapseNormalStep(s, n);
      } else {
        WordsSingle(s);
      }
    }
  }

  lemma CollapseNormalStep(s: string, n: nat)
    requires |s| > 0 && !IsSpace(s[0]) && n == WordLen(s) && n < |s| - 1 && s[n] == ' '
    requires Collapse(s[n + 1..]) == s[n + 1..]
    ensures Collapse(s) == s
  {
    WordsCons(s, n);
    SplitAtSpace(s, n);
    CollapseCons(s, s[..n], s[n + 1..]);
  }

  lemma SplitAtSpace(s: string, n: nat)
    requires n < |s| && s[n] == ' '
    ensures s == s[..n] + " " + s[n + 1..]
  {
    assert " " == [s[n]];
    assert s == s[..n] + [s[n]] + s[n + 1..];
  }

  lemma CollapseAllSpace(s: string)
    requires AllSpace(s)
    ensures Collapse(s) == ""
  {
    WordsAllSpace(s);
  }

  /** Surrounding whitespace does not change the collapsed form. */
  lemma CollapsePadded(w1: string, s: string, w2: string)
    requires AllSpace(w1) && AllSpace(w2)
    ensures Collapse(w1 + s + w2) == Collapse(s)
  {
    WordsPadded(w1, s, w2);
  }

  lemma WordsPadded(w1: string, s: string, w2: string)
    requires AllSpace(w1) && AllSpace(w2)
    ensures Words(w1 + s + w2) == Words(s)
  {
    Assoc(w1, s, w2);
    WordsLeadingSpace(w1, s + w2);
    WordsTrailingSpace(s, w2);
  }

  /** An occurrence of whitespace-free text that starts inside the first word
      lies entirely inside it. */
  lemma OccursInWord(t: string, k: string, i: nat)
    requires |k| > 0 && NoSpace(k)
    requires OccursAt(t, k, i) && i < WordLen(t)
    ensures OccursAt(t[..WordLen(t)], k, i)
  {
    forall m | i <= m < i + |k|
      ensures !IsSpace(t[m])
    {
      assert t[i + (m - i)] == k[m - i];
    }
  }

  lemma JoinContainsHead(w: string, ws: seq<string>, k: string)
    requires Contains(w, k)
    ensures Contains(Join([w] + ws, " "), k)
  {
    if |ws| == 0 {
      assert Join([w] + ws, " ") == w;
    } else {
      JoinCons(w, ws, " ");
      ContainsInfix("", w, " " + Join(ws, " "), k);
      assert "" + w + (" " + Join(ws, " ")) == w + " " + Join(ws, " ");
    }
  }

  lemma JoinContainsTail(w: string, ws: seq<string>, k: string)
    requires |k| > 0 && Contains(Join(ws, " "), k)
    ensures Contains(Join([w] + ws, " "), k)
  {
    JoinCons(w, ws, " ");
    ContainsInfix(w + " ", Join(ws, " "), "", k);
    assert w + " " + Join(ws, " ") + "" == w + " " + Join(ws, " ");
  }

  /** Leading whitespace matters neither for the words nor for what
      whitespace-free text occurs. */
  lemma LStripKeeps(s: string, k: string)
    requires |k| > 0 && NoSpace(k)
    ensures Collapse(s) == Collapse(LStrip(s))
    ensures Contains(s, k) ==> Contains(LStrip(s), k)
  {
    var d := LeadLen(s);
    assert s == s[..d] + s[d..];
    WordsLeadingSpace(s[..d], s[d..]);
    if Contains(s, k) {
      LStripContains(s, k);
    }
  }

  lemma LStripContains(s: string, k: string)
    requires |k| > 0 && NoSpace(k) && Contains(s, k)
    ensures Contains(LStrip(s), k)
  {
    var d := LeadLen(s);
    PaddedContains(s, d, |s|, k);
    assert s[d..|s|] == s[d..] == LStrip(s);
  }

  /** The step of `CollapseContains` for text that starts with a word. */
  lemma CollapseContainsStep(t: string, k: string, i: nat)
    requires |k| > 0 && NoSpace(k)
    requires |t| > 0 && !IsSpace(t[0]) && OccursAt(t, k, i)
    requires i >= WordLen(t) ==> Contains(Collapse(t[WordLen(t)..]), k)
    ensures Contains(Collapse(t), k)
  {
    WordsStep(t);
    var n := WordLen(t);
    if i < n {
      OccursInWord(t, k, i);
      JoinContainsHead(t[..n], Words(t[n..]), k);
    } else {
      JoinContainsTail(t[..n], Words(t[n..]), k);
    }
  }

  /** Collapsing never splits or hides a piece of text free of whitespace: such
      a piece lies inside one word, and every word is kept. */
  lemma {:induction false} CollapseContains(s: string, k: string)
    requires |k| > 0 && NoSpace(k)
    requires Contains(s, k)
    ensures Contains(Collapse(s), k)
    decreases |s|
  {
    LStripKeeps(s, k);
    var t := LStrip(s);
    var i := StrippedOccurrence(s, k);
    var n := WordLen(t);
    if i >= n {
      ContainsAfterWord(t, k, i);
      CollapseContains(t[n..], k);
    }
    CollapseContainsStep(t, k, i);
  }

  /** An occurrence of `k` in the stripped text, which starts with a word. */
  lemma StrippedOccurrence(s: string, k: string) returns (i: nat)
    requires |k| > 0 && Contains(LStrip(s), k)
    ensures OccursAt(LStrip(s), k, i)
    ensures |LStrip(s)| <= |s| && |LStrip(s)| > 0 && !IsSpace(LStrip(s)[0])
    ensures WordLen(LStrip(s)) > 0
  {
    var t := LStrip(s);
    i :| 0 <= i <= |t| && OccursAt(t, k, i);
  }

  lemma ContainsAfterWord(t: string, k: string, i: nat)
    requires OccursAt(t, k, i) && WordLen(t) <= i
    ensures Contains(t[WordLen(t)..], k)
  {
    assert OccursAt(t[WordLen(t)..], k, i - WordLen(t));
  }

  // ---------------------------------------------------------------------------
  // Lines

  lemma FirstIndexUnique(s: string, c: char, n: nat)
    requires n <= |s|
    requires forall i :: 0 <= i < n ==> s[i] != c
    requires n == |s| || s[n] == c
    ensures FirstIndex(s, c) == n
  {
  }

  /** Splitting at a newline splits the pieces on either side independently. */
  lemma {:induction false} LinesAppend(a: string, b: string)
    ensures Lines(a + "\n" + b) == Lines(a) + Lines(b)
    decreases |a|
  {
    var x := a + "\n" + b;
    var m := FirstIndex(a, '\n');
    NewlineJoin(a, b, m);
    FirstIndexUnique(x, '\n', m);
    LinesAt(x, m);
    if m < |a| {
      LinesAt(a, m);
      LinesAppend(a[m + 1..], b);
      SeqAssoc([a[..m]], Lines(a[m + 1..]), Lines(b));
    } else {
      assert a[..m] == a;
      assert Lines(a) == [a];
    }
  }

  lemma LinesAt(s: string, n: nat)
    requires n == FirstIndex(s, '\n') < |s|
    ensures Lines(s) == [s[..n]] + Lines(s[n + 1..])
  {
  }

  lemma NewlineJoin(a: string, b: string, m: nat)
    requires m <= |a|
    ensures (a + "\n" + b)[..m] == a[..m]
    ensures forall i :: 0 <= i < m ==> (a + "\n" + b)[i] == a[i]
    ensures m < |a| ==> (a + "\n" + b)[m] == a[m] && (a + "\n" + b)[m + 1..] == a[m + 1..] + "\n" + b
    ensures m == |a| ==> (a + "\n" + b)[m] == '\n' && (a + "\n" + b)[m + 1..] == b
  {
  }

  lemma SeqAssoc<T>(a: seq<T>, b: seq<T>, c: seq<T>)
    ensures a + (b + c) == a + b + c
  {
  }

  /** Splitting lines joined by newlines gives back the lines, provided none of
      them contains a newline. */
  lemma {:induction false} LinesJoin(xs: seq<string>)
    requires |xs| > 0
    requires forall i :: 0 <= i < |xs| ==> '\n' !in xs[i]
    ensures Lines(Join(xs, "\n")) == xs
    decreases |xs|
  {
    FirstIndexUnique(xs[0], '\n', |xs[0]|);
    if |xs| > 1 {
      LinesAppend(xs[0], Join(xs[1..], "\n"));
      LinesJoin(xs[1..]);
    }
  }
}
