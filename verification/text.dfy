/**
 Character classes, case mapping, substrings and edge trimming over `string`,
 the building blocks that the SQL gate and the reply cleanup share.
 Python's `str.upper()` and `str.strip()` are approximated on ASCII.
 */
module Text {

  /** Whitespace as Python's `str.split()` and `str.strip()` see it among ASCII
      characters: space, `\t` `\n` `\v` `\f` `\r` and the separators 0x1C-0x1F. */
  predicate IsSpace(c: char)
  {
    c == ' ' || ('\t' <= c <= '\r') || ('\U{001C}' <= c <= '\U{001F}')
  }

  predicate AllSpace(s: string)
  {
    forall i :: 0 <= i < |s| ==> IsSpace(s[i])
  }

  /** Neither the first nor the last character is whitespace. */
  predicate NoEdgeSpace(s: string)
  {
    |s| == 0 || (!IsSpace(s[0]) && !IsSpace(s[|s| - 1]))
  }

  predicate IsLower(c: char)
  {
    'a' <= c <= 'z'
  }

  function UpperChar(c: char): char
  {
    if IsLower(c) then (c as int - 32) as char else c
  }

  /** `str.upper()` on ASCII: every lower-case letter becomes its capital. */
  function Upper(s: string): string
  {
    seq(|s|, i requires 0 <= i < |s| => UpperChar(s[i]))
  }

  /** `k` occurs in `s` starting at index `i`. */
  predicate OccursAt(s: string, k: string, i: int)
  {
    0 <= i && i + |k| <= |s| && forall m :: 0 <= m < |k| ==> s[i + m] == k[m]
  }

  /** Python's `k in s` for strings. */
  predicate Contains(s: string, k: string)
  {
    exists i | 0 <= i <= |s| :: OccursAt(s, k, i)
  }

  predicate StartsWith(s: string, p: string)
  {
    |p| <= |s| && s[..|p|] == p
  }

  predicate EndsWith(s: string, p: string)
  {
    |p| <= |s| && s[|s| - |p|..] == p
  }

  /** `s` is `r` with whitespace, and only whitespace, added on either side. */
  ghost predicate Trimmed(s: string, r: string)
  {
    exists i :: OccursAt(s, r, i) && AllSpace(s[..i]) && AllSpace(s[i + |r|..])
  }

  /** Length of the leading whitespace run of `s`. */
  function LeadLen(s: string): (n: nat)
    ensures n <= |s|
    ensures forall i :: 0 <= i < n ==> IsSpace(s[i])
    ensures n == |s| || !IsSpace(s[n])
  {
    if |s| > 0 && IsSpace(s[0]) then 1 + LeadLen(s[1..]) else 0
  }

  /** Length of the trailing whitespace run of `s`. */
  function TrailLen(s: string): (n: nat)
    ensures n <= |s|
    ensures forall i :: |s| - n <= i < |s| ==> IsSpace(s[i])
    ensures n == |s| || !IsSpace(s[|s| - n - 1])
  {
    if |s| > 0 && IsSpace(s[|s| - 1]) then 1 + TrailLen(s[..|s| - 1]) else 0
  }

  /** `str.lstrip()`: drops the leading whitespace run. */
  function LStrip(s: string): string
  {
    s[LeadLen(s)..]
  }

  /** `str.rstrip()`: drops the trailing whitespace run. */
  function RStrip(s: string): string
  {
    s[..|s| - TrailLen(s)]
  }

  /** `str.strip()`: the unique infix of `s` that has no whitespace at its edges
      and is surrounded by whitespace only. */
  function Strip(s: string): (r: string)
    ensures NoEdgeSpace(r)
    ensures Trimmed(s, r)
  {
    var d := LeadLen(s);
    var l := s[d..];
    var r := l[..|l| - TrailLen(l)];
    StripWitness(s, d, l, r);
    r
  }

  lemma StripWitness(s: string, d: nat, l: string, r: string)
    requires d == LeadLen(s) && l == s[d..] && r == l[..|l| - TrailLen(l)]
    ensures OccursAt(s, r, d) && AllSpace(s[..d]) && AllSpace(s[d + |r|..])
    ensures NoEdgeSpace(r)
  {
    assert s[d + |r|..] == l[|r|..];
    if |r| > 0 {
      assert r[0] == s[d];
      assert r[|r| - 1] == l[|l| - TrailLen(l) - 1];
    }
  }

  /** Index of the first `c` in `s`, or `|s|` when there is none. */
  function FirstIndex(s: string, c: char): (n: nat)
    ensures n <= |s|
    ensures forall i :: 0 <= i < n ==> s[i] != c
    ensures n < |s| ==> s[n] == c
  {
    if |s| == 0 || s[0] == c then 0 else 1 + FirstIndex(s[1..], c)
  }

  // ---------------------------------------------------------------------------
  // Case mapping

  lemma UpperAppend(a: string, b: string)
    ensures Upper(a + b) == Upper(a) + Upper(b)
  {
  }

  lemma UpperIdempotent(s: string)
    ensures Upper(Upper(s)) == Upper(s)
  {
  }

  /** Upper-casing never changes whether a character is whitespace, and leaves
      every character that is not a lower-case letter alone. */
  lemma UpperCharKeeps(c: char)
    ensures IsSpace(UpperChar(c)) <==> IsSpace(c)
    ensures !IsLower(c) ==> UpperChar(c) == c
    ensures UpperChar(c) == c || IsLower(c)
  {
  }

  lemma UpperOfSpace(w: string)
    requires AllSpace(w)
    ensures Upper(w) == w
  {
  }

  predicate NoLower(s: string)
  {
    forall i :: 0 <= i < |s| ==> !IsLower(s[i])
  }

  /** No ASCII letter of either case: punctuation, digits, whitespace. */
  predicate NoLetter(s: string)
  {
    forall i :: 0 <= i < |s| ==> !IsLower(s[i]) && !('A' <= s[i] <= 'Z')
  }

  /** Upper-casing leaves text without lower-case letters unchanged. */
  lemma UpperIdentity(s: string)
    requires NoLower(s)
    ensures Upper(s) == s
  {
  }

  /** A pattern without lower-case letters survives upper-casing, and a pattern
      without letters occurs in the upper-cased text only where it occurred
      before: upper-casing neither hides a keyword nor invents a `--`. */
  lemma UpperContains(s: string, k: string)
    ensures NoLower(k) && Contains(s, k) ==> Contains(Upper(s), k)
    ensures NoLetter(k) && Contains(Upper(s), k) ==> Contains(s, k)
  {
    if NoLower(k) && Contains(s, k) {
      var i :| 0 <= i <= |s| && OccursAt(s, k, i);
      assert OccursAt(Upper(s), k, i);
    }
    if NoLetter(k) && Contains(Upper(s), k) {
      var i :| 0 <= i <= |Upper(s)| && OccursAt(Upper(s), k, i);
      forall j | 0 <= j < |k|
        ensures s[i + j] == k[j]
      {
        assert Upper(s)[i + j] == k[j];
      }
      assert OccursAt(s, k, i);
    }
  }

  /** Upper-casing neither creates nor removes a character that is not a letter. */
  lemma UpperKeepsSymbol(s: string, c: char)
    requires !IsLower(c) && !('A' <= c <= 'Z')
    ensures c in Upper(s) <==> c in s
    ensures |s| > 0 ==> (Upper(s)[|s| - 1] == c <==> s[|s| - 1] == c)
  {
    if c in Upper(s) {
      var i :| 0 <= i < |s| && Upper(s)[i] == c;
      assert s[i] == c;
    }
    if c in s {
      var i :| 0 <= i < |s| && s[i] == c;
      assert Upper(s)[i] == c;
    }
  }

  /** A character that is not whitespace is kept whitespace-free by upper-casing. */
  lemma UpperKeepsEdges(s: string)
    ensures NoEdgeSpace(s) <==> NoEdgeSpace(Upper(s))
    ensures AllSpace(s) <==> AllSpace(Upper(s))
  {
    forall i | 0 <= i < |s|
      ensures IsSpace(Upper(s)[i]) <==> IsSpace(s[i])
    {
      UpperCharKeeps(s[i]);
    }
  }

  // ---------------------------------------------------------------------------
  // Trimming

  /** The leading whitespace run is the prefix of whitespace that ends at the
      first non-whitespace character. */
  lemma LeadLenUnique(s: string, n: nat)
    requires n <= |s|
    requires forall i :: 0 <= i < n ==> IsSpace(s[i])
    requires n == |s| || !IsSpace(s[n])
    ensures LeadLen(s) == n
  {
  }

  lemma TrailLenUnique(s: string, n: nat)
    requires n <= |s|
    requires forall i :: |s| - n <= i < |s| ==> IsSpace(s[i])
    requires n == |s| || !IsSpace(s[|s| - n - 1])
    ensures TrailLen(s) == n
  {
  }

  /** Upper-casing does not move the first or last non-whitespace character. */
  lemma EdgeLenUpper(s: string)
    ensures LeadLen(Upper(s)) == LeadLen(s)
    ensures TrailLen(Upper(s)) == TrailLen(s)
  {
    var u := Upper(s);
    forall i | 0 <= i < |s|
      ensures IsSpace(u[i]) <==> IsSpace(s[i])
    {
      UpperCharKeeps(s[i]);
    }
    LeadLenUnique(u, LeadLen(s));
    TrailLenUnique(u, TrailLen(s));
  }

  /** Trimming and upper-casing commute, since upper-casing maps whitespace to
      whitespace and nothing else to whitespace. */
  lemma StripUpper(s: string)
    ensures Strip(Upper(s)) == Upper(Strip(s))
  {
    LStripUpper(s);
    RStripUpper(LStrip(s));
    StripDef(s);
    StripDef(Upper(s));
  }

  lemma LStripUpper(s: string)
    ensures LStrip(Upper(s)) == Upper(LStrip(s))
  {
    EdgeLenUpper(s);
    UpperDrop(s, LeadLen(s));
  }

  lemma RStripUpper(s: string)
    ensures RStrip(Upper(s)) == Upper(RStrip(s))
  {
    var m := |s| - TrailLen(s);
    EdgeLenUpper(s);
    assert RStrip(Upper(s)) == Upper(s)[..m];
    UpperTake(s, m);
  }

  lemma UpperDrop(s: string, d: nat)
    requires d <= |s|
    ensures Upper(s)[d..] == Upper(s[d..])
  {
  }

  lemma UpperTake(s: string, d: nat)
    requires d <= |s|
    ensures Upper(s)[..d] == Upper(s[..d])
  {
  }

  lemma LStripAppend(a: string, b: string)
    ensures LStrip(a + b) == if AllSpace(a) then LStrip(b) else LStrip(a) + b
  {
    var ab := a + b;
    if AllSpace(a) {
      LeadLenUnique(ab, |a| + LeadLen(b));
      assert ab[|a| + LeadLen(b)..] == b[LeadLen(b)..];
    } else {
      var n := LeadLen(a);
      assert n < |a|;
      LeadLenUnique(ab, n);
      assert ab[n..] == a[n..] + b;
    }
  }

  lemma RStripAppend(a: string, b: string)
    ensures RStrip(a + b) == if AllSpace(b) then RStrip(a) else a + RStrip(b)
  {
    var ab := a + b;
    if AllSpace(b) {
      TrailLenUnique(ab, |b| + TrailLen(a));
      assert ab[..|ab| - (|b| + TrailLen(a))] == a[..|a| - TrailLen(a)];
    } else {
      var n := TrailLen(b);
      assert n < |b|;
      TrailLenUnique(ab, n);
      assert ab[..|ab| - n] == a + b[..|b| - n];
    }
  }

  lemma StripIdentity(s: string)
    requires NoEdgeSpace(s)
    ensures Strip(s) == s
  {
  }

  lemma StripAllSpace(s: string)
    requires AllSpace(s)
    ensures Strip(s) == ""
  {
    LStripAppend(s, "");
    assert s + "" == s;
  }

  /** Whitespace added on either side does not change the trimmed text. */
  lemma StripPadded(w1: string, s: string, w2: string)
    requires AllSpace(w1) && AllSpace(w2)
    ensures Strip(w1 + s + w2) == Strip(s)
  {
    if AllSpace(s) {
      assert AllSpace(w1 + s + w2);
      StripAllSpace(w1 + s + w2);
      StripAllSpace(s);
    } else {
      assert w1 + s + w2 == w1 + (s + w2);
      LStripAppend(w1, s + w2);
      LStripAppend(s, w2);
      RStripAppend(LStrip(s), w2);
      StripDef(w1 + s + w2);
      StripDef(s);
    }
  }

  /** A text is its trimmed form with its leading and trailing whitespace
      put back. */
  lemma StripSplit(s: string) returns (w1: string, w2: string)
    ensures AllSpace(w1) && AllSpace(w2)
    ensures s == w1 + Strip(s) + w2
  {
    var d := LeadLen(s);
    var l := s[d..];
    var m := |l| - TrailLen(l);
    assert Strip(s) == l[..m];
    w1, w2 := s[..d], l[m..];
    LeadSpace(s);
    TrailSpace(l);
    SplitAt(s, d);
    SplitAt(l, m);
    Assoc(w1, l[..m], w2);
  }

  lemma LeadSpace(s: string)
    ensures AllSpace(s[..LeadLen(s)])
  {
  }

  lemma TrailSpace(s: string)
    ensures AllSpace(s[|s| - TrailLen(s)..])
  {
  }

  lemma SplitAt(s: string, n: nat)
    requires n <= |s|
    ensures s == s[..n] + s[n..]
  {
  }

  lemma Assoc(a: string, b: string, c: string)
    ensures a + (b + c) == a + b + c
  {
  }

  lemma StripDef(s: string)
    ensures Strip(s) == RStrip(LStrip(s))
  {
  }

  /** A pattern without whitespace that occurs in whitespace-padded text
      occurs in the text between the padding. */
  lemma PaddedContains(s: string, j: int, n: int, k: string)
    requires 0 <= j <= n <= |s|
    requires AllSpace(s[..j]) && AllSpace(s[n..])
    requires |k| > 0 && forall m :: 0 <= m < |k| ==> !IsSpace(k[m])
    requires Contains(s, k)
    ensures Contains(s[j..n], k)
  {
    var i :| 0 <= i <= |s| && OccursAt(s, k, i);
    assert s[i] == k[0] && s[i + |k| - 1] == k[|k| - 1];
    assert j <= i && i + |k| <= n;
    assert OccursAt(s[j..n], k, i - j);
  }

  /** A pattern without whitespace that occurs in `s` also occurs in its
      trimmed form. */
  lemma StripContains(s: string, k: string)
    requires |k| > 0 && forall m :: 0 <= m < |k| ==> !IsSpace(k[m])
    requires Contains(s, k)
    ensures Contains(Strip(s), k)
  {
    TrimmedContains(s, Strip(s), k);
  }

  lemma TrimmedContains(s: string, r: string, k: string)
    requires Trimmed(s, r)
    requires |k| > 0 && forall m :: 0 <= m < |k| ==> !IsSpace(k[m])
    requires Contains(s, k)
    ensures Contains(r, k)
  {
    var j :| OccursAt(s, r, j) && AllSpace(s[..j]) && AllSpace(s[j + |r|..]);
    PaddedContains(s, j, j + |r|, k);
    assert s[j..j + |r|] == r;
  }

  /** A pattern that occurs in a part occurs in the whole. */
  lemma ContainsInfix(a: string, s: string, b: string, k: string)
    requires Contains(s, k)
    ensures Contains(a + s + b, k)
  {
    var i :| 0 <= i <= |s| && OccursAt(s, k, i);
    assert OccursAt(a + s + b, k, |a| + i);
  }

  lemma StripAbsent(s: string, k: string)
    requires !Contains(s, k)
    ensures !Contains(Strip(s), k)
  {
    StripContainsBack(s, k);
  }

  /** What occurs in the stripped text occurs in the text. */
  lemma StripContainsBack(s: string, k: string)
    ensures Contains(Strip(s), k) ==> Contains(s, k)
  {
    var l := LStrip(s);
    StripDef(s);
    PrefixContainsBack(l, |l| - TrailLen(l), k);
    SuffixContainsBack(s, LeadLen(s), k);
  }

  lemma PrefixContainsBack(s: string, n: nat, k: string)
    requires n <= |s|
    ensures Contains(s[..n], k) ==> Contains(s, k)
  {
    if Contains(s[..n], k) {
      var i :| 0 <= i <= n && OccursAt(s[..n], k, i);
      assert OccursAt(s, k, i);
    }
  }

  lemma SuffixContainsBack(s: string, n: nat, k: string)
    requires n <= |s|
    ensures Contains(s[n..], k) ==> Contains(s, k)
  {
    if Contains(s[n..], k) {
      var i :| 0 <= i <= |s| - n && OccursAt(s[n..], k, i);
      assert OccursAt(s, k, n + i);
    }
  }

  /** Text that lacks `p` lacks every pattern that starts with `p`. */
  lemma AbsentExtension(s: string, p: string, k: string)
    requires !Contains(s, p) && StartsWith(k, p)
    ensures !Contains(s, k)
  {
    ExtensionContains(s, p, k);
  }

  lemma ExtensionContains(s: string, p: string, k: string)
    requires StartsWith(k, p)
    ensures Contains(s, k) ==> Contains(s, p)
  {
    if Contains(s, k) {
      var i :| 0 <= i <= |s| && OccursAt(s, k, i);
      forall m | 0 <= m < |p| ensures s[i + m] == p[m] {
        assert k[m] == p[m];
      }
      assert OccursAt(s, p, i);
    }
  }

  lemma ContainsTail(s: string, k: string)
    requires |s| > 0
    ensures Contains(s[1..], k) ==> Contains(s, k)
  {
    if Contains(s[1..], k) {
      var i :| 0 <= i <= |s[1..]| && OccursAt(s[1..], k, i);
      assert OccursAt(s, k, i + 1);
    }
  }

  /** Past the first character, occurrences in `t` are the occurrences in
      its tail, one place further on. */
  lemma OccursShift(t: string, k: string)
    requires |t| > 0 && |k| > 0 && !OccursAt(t, k, 0)
    ensures forall i :: 1 <= i <= |t| ==> (OccursAt(t, k, i) <==> OccursAt(t[1..], k, i - 1))
    ensures Contains(t, k) <==> Contains(t[1..], k)
  {
    forall i | 1 <= i <= |t|
      ensures OccursAt(t, k, i) <==> OccursAt(t[1..], k, i - 1)
    {
      if OccursAt(t[1..], k, i - 1) {
        forall m | 0 <= m < |k| ensures t[i + m] == k[m] {
          assert t[1..][i - 1 + m] == k[m];
        }
      }
    }
    if Contains(t, k) {
      var i :| 0 <= i <= |t| && OccursAt(t, k, i);
      assert OccursAt(t[1..], k, i - 1);
    }
    ContainsTail(t, k);
  }

}
