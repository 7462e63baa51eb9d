// The SQL safety gate `is_safe_sql` of the chat backend: the generated
// statement is trimmed and upper-cased, `--` line comments and closed
// `/* ... */` block comments are cut out (in that order), whitespace runs
// are collapsed to single spaces, and the result must start with `SELECT`
// and contain none of seven keywords anywhere, not even inside an identifier.
module SafeSql {
  import opened Wrappers
  import opened Text
  import opened Tokens

  /** The denylist, checked in this order. */
  const Dangerous: seq<string> :=
    ["INSERT", "UPDATE", "DELETE", "DROP", "CREATE", "ALTER", "TRUNCATE"]

  // ---------------------------------------------------------------------------
  // Comment removal

  /** The suffix of `s` that starts at its first newline (empty if none):
      what is left after `.*` has consumed the rest of a line. */
  function LineRest(s: string): (r: string)
    ensures |r| <= |s|
    ensures '\n' in s ==> |r| > 0 && r[0] == '\n'
    ensures '\n' in s ==> EndsWith(s, r) && '\n' !in s[..|s| - |r|]
    ensures '\n' !in s ==> r == ""
  {
    var n := FirstIndex(s, '\n');
    assert forall i :: 0 <= i < n ==> s[..n][i] == s[i];
    s[n..]
  }

  /** `re.sub(r'--.*', '', s)`: from every `--` to the end of its line
      (the newline stays, since `.` does not match it). */
  function StripLineComments(s: string): string
    decreases |s|
  {
    if |s| < 2 then s
    else if s[0] == '-' && s[1] == '-' then StripLineComments(LineRest(s))
    else [s[0]] + StripLineComments(s[1..])
  }

  // Index in `t` of the first `*/`, if any.
  function CloseIndex(t: string): (j: Option<nat>)
    ensures j.Some? ==> OccursAt(t, "*/", j.value)
    ensures j.Some? ==> forall i :: 0 <= i < j.value ==> !OccursAt(t, "*/", i)
    ensures j.None? <==> !Contains(t, "*/")
  {
    if |t| < 2 then None
    else if t[0] == '*' && t[1] == '/' then
      assert OccursAt(t, "*/", 0);
      Some(0)
    else
      assert t[0] != "*/"[0] || t[1] != "*/"[1];
      OccursShift(t, "*/");
      match CloseIndex(t[1..])
      case Some(j) => Some(j + 1)
      case None => None
  }

  // `re.sub(r'/\*.*?\*/', '', s, flags=re.DOTALL)`: each `/*` is cut out
  // together with everything up to the nearest following `*/`; a `/*`
  // that is never closed stays.
  function StripBlockComments(s: string): string
    decreases |s|
  {
    if |s| < 2 then s
    else if s[0] == '/' && s[1] == '*' then
      match CloseIndex(s[2..])
      case Some(j) => StripBlockComments(s[j + 4..])
      case None => [s[0]] + StripBlockComments(s[1..])
    else [s[0]] + StripBlockComments(s[1..])
  }

  /** Comment removal and whitespace collapsing, applied to trimmed,
      upper-cased text. */
  function Clean(t: string): string
  {
    Collapse(StripBlockComments(StripLineComments(t)))
  }

  /** The text the gate inspects. */
  function Normalize(sql: string): (n: string)
    ensures NormalSpacing(n)
  {
    var n := Clean(Upper(Strip(sql)));
    CollapseSpec(StripBlockComments(StripLineComments(Upper(Strip(sql)))));
    n
  }

  // ---------------------------------------------------------------------------
  // The gate

  /** The keyword loop: the first keyword of `ks` that occurs in `n`. */
  function FirstDangerous(n: string, ks: seq<string>): (r: Option<string>)
    ensures r.Some? ==> r.value in ks && Contains(n, r.value)
    ensures r.None? <==> forall k | k in ks :: !Contains(n, k)
  {
    if |ks| == 0 then None
    else if Contains(n, ks[0]) then Some(ks[0])
    else FirstDangerous(n, ks[1..])
  }

  function IsSafeSql(sql: string): (safe: bool)
    ensures safe ==> StartsWith(Normalize(sql), "SELECT")
    ensures safe <==>
      StartsWith(Normalize(sql), "SELECT") && forall k | k in Dangerous :: !Contains(Normalize(sql), k)
  {
    var n := Normalize(sql);
    StartsWith(n, "SELECT") && FirstDangerous(n, Dangerous).None?
  }

  // ---------------------------------------------------------------------------
  // Small facts about patterns

  /** A pattern that starts with a non-space character never occurs in
      whitespace. */
  lemma SpaceLacks(w: string, k: string)
    requires AllSpace(w) && |k| > 0 && !IsSpace(k[0])
    ensures !Contains(w, k)
    ensures !EndsWith(w, k)
  {
  }

  /** A pattern with a character that `s` lacks does not occur in `s`. */
  lemma MissingChar(s: string, k: string, m: nat)
    requires m < |k| && k[m] !in s
    ensures !Contains(s, k)
  {
  }

  lemma UpperLacks(s: string, k: string)
    requires NoLetter(k) && !Contains(s, k)
    ensures !Contains(Upper(s), k)
  {
    UpperContains(s, k);
  }

  // ---------------------------------------------------------------------------
  // Scanning steps

  lemma ConsJoin(a: string, y: string)
    requires |a| > 0
    ensures [a[0]] + (a[1..] + y) == a + y
  {
    assert a == [a[0]] + a[1..];
  }

  lemma ConsTail(a: string, x: string)
    requires |a| > 0
    ensures (a + x)[0] == a[0] && (a + x)[1..] == a[1..] + x
  {
  }

  /** A text that lacks the two-character marker and does not end in its
      first character does not open with the marker, whatever follows. */
  lemma HeadPair(a: string, x: string, c0: char, c1: char)
    requires |a| > 0 && |a + x| >= 2 && !Contains(a, [c0, c1]) && !EndsWith(a, [c0])
    ensures !((a + x)[0] == c0 && (a + x)[1] == c1)
  {
    if |a| >= 2 {
      assert !OccursAt(a, [c0, c1], 0);
    } else {
      assert a[|a| - 1..] == [a[0]];
    }
  }

  lemma EndsTail(a: string, p: string)
    requires |a| > 0
    ensures EndsWith(a[1..], p) ==> EndsWith(a, p)
  {
    if EndsWith(a[1..], p) {
      assert a[1..][|a| - 1 - |p|..] == a[|a| - |p|..];
    }
  }

  lemma LineStep(s: string)
    requires |s| >= 2 && !(s[0] == '-' && s[1] == '-')
    ensures StripLineComments(s) == [s[0]] + StripLineComments(s[1..])
  {
  }

  lemma LineSkip(s: string)
    requires |s| >= 2 && s[0] == '-' && s[1] == '-'
    ensures StripLineComments(s) == StripLineComments(LineRest(s))
  {
  }

  lemma BlockStep(s: string)
    requires |s| >= 2 && !(s[0] == '/' && s[1] == '*')
    ensures StripBlockComments(s) == [s[0]] + StripBlockComments(s[1..])
  {
  }

  lemma BlockCloseStep(s: string, j: nat)
    requires |s| >= 2 && s[0] == '/' && s[1] == '*' && CloseIndex(s[2..]) == Some(j)
    ensures StripBlockComments(s) == StripBlockComments(s[j + 4..])
  {
  }

  lemma BlockOpenStep(s: string)
    requires |s| >= 2 && s[0] == '/' && s[1] == '*' && CloseIndex(s[2..]).None?
    ensures StripBlockComments(s) == [s[0]] + StripBlockComments(s[1..])
  {
  }

  // ---------------------------------------------------------------------------
  // Line comments

  /** Text without `--` that does not end in `-` passes through the line
      stripper untouched, whatever follows it. */
  lemma {:induction false} LinePrefix(a: string, x: string)
    requires !Contains(a, "--") && !EndsWith(a, "-")
    ensures StripLineComments(a + x) == a + StripLineComments(x)
    decreases |a|
  {
    if |a| > 0 {
      var s := a + x;
      ConsTail(a, x);
      if |s| >= 2 {
        HeadPair(a, x, '-', '-');
        LineStep(s);
        ContainsTail(a, "--");
        EndsTail(a, "-");
        LinePrefix(a[1..], x);
        ConsJoin(a, StripLineComments(x));
      } else {
        assert x == "" && s == a;
      }
    } else {
      assert a + x == x;
    }
  }

  lemma LineIdentity(a: string)
    requires !Contains(a, "--")
    ensures StripLineComments(a) == a
    decreases |a|
  {
    if |a| >= 2 {
      assert !OccursAt(a, "--", 0);
      ContainsTail(a, "--");
      LineIdentity(a[1..]);
    }
  }

  lemma SpaceLineIdentity(w: string)
    requires AllSpace(w)
    ensures StripLineComments(w) == w
  {
    SpaceLacks(w, "--");
    LineIdentity(w);
  }

  /** A `--` comment without a newline is cut out to the end of the text. */
  lemma LineCommentToEnd(c: string)
    requires '\n' !in c
    ensures StripLineComments("--" + c) == ""
  {
    var s := "--" + c;
    FirstIndexUnique(s, '\n', |s|);
    assert LineRest(s) == "";
  }

  /** A `--` comment ends at the newline, which stays. */
  lemma LineCommentToNewline(c: string, b: string)
    requires '\n' !in c
    ensures StripLineComments("--" + c + "\n" + b) == "\n" + StripLineComments(b)
  {
    var s := "--" + c + "\n" + b;
    FirstIndexUnique(s, '\n', |c| + 2);
    assert LineRest(s) == "\n" + b;
    assert ("\n" + b)[1..] == b;
  }

  /** Whitespace added at the end of the text survives line-comment removal,
      except for the part a final unterminated comment swallows. */
  lemma {:induction false} LineTrailSpace(x: string, w: string) returns (t: string)
    requires AllSpace(w)
    ensures AllSpace(t) && StripLineComments(x + w) == StripLineComments(x) + t
    decreases |x|
  {
    if |x| <= 1 {
      LineTrailShort(x, w);
      t := w;
    } else if x[0] == '-' && x[1] == '-' {
      if '\n' in x {
        var n := FirstIndex(x, '\n');
        LineTrailNewline(x, w, n);
        t := LineTrailSpace(x[n..], w);
      } else {
        t := LineTrailOpen(x, w);
      }
    } else {
      t := LineTrailSpace(x[1..], w);
      LineTrailStep(x, w, t);
    }
  }

  lemma LineTrailShort(x: string, w: string)
    requires |x| <= 1 && AllSpace(w)
    ensures StripLineComments(x + w) == StripLineComments(x) + w
  {
    var s := x + w;
    SpaceLineIdentity(w);
    if |x| == 0 {
      assert s == w;
    } else if |w| > 0 {
      ConsTail(x, w);
      assert IsSpace(s[1]);
      LineStep(s);
      assert s == [x[0]] + w;
    } else {
      assert s == x;
    }
  }

  lemma LineTrailNewline(x: string, w: string, n: nat)
    requires |x| >= 2 && x[0] == '-' && x[1] == '-'
    requires n == FirstIndex(x, '\n') < |x|
    ensures 0 < n
    ensures StripLineComments(x + w) == StripLineComments(x[n..] + w)
    ensures StripLineComments(x) == StripLineComments(x[n..])
  {
    var s := x + w;
    LineSkip(s);
    LineSkip(x);
    SliceJoin(x, w, n);
    assert forall i :: 0 <= i < n ==> s[i] == x[i];
    FirstIndexUnique(s, '\n', n);
  }

  lemma LineTrailOpen(x: string, w: string) returns (t: string)
    requires |x| >= 2 && x[0] == '-' && x[1] == '-' && '\n' !in x
    requires AllSpace(w)
    ensures AllSpace(t) && StripLineComments(x + w) == StripLineComments(x) + t
  {
    LineSkip(x + w);
    LineSkip(x);
    RestAfter(x, w);
    t := LineRest(w);
    assert t == w[FirstIndex(w, '\n')..];
    SpaceLineIdentity(t);
    assert StripLineComments(x) == StripLineComments("") == "";
    assert StripLineComments(x) + t == t;
  }

  /** Text without a newline in front does not change the rest of the line. */
  lemma RestAfter(x: string, w: string)
    requires '\n' !in x
    ensures LineRest(x + w) == LineRest(w)
  {
    var s, m := x + w, FirstIndex(w, '\n');
    assert forall i :: 0 <= i < |x| ==> s[i] == x[i];
    assert forall i :: |x| <= i < |x| + m ==> s[i] == w[i - |x|];
    FirstIndexUnique(s, '\n', |x| + m);
    assert s[|x| + m..] == w[m..];
  }

  lemma LineTrailStep(x: string, w: string, t: string)
    requires |x| >= 2 && !(x[0] == '-' && x[1] == '-')
    requires StripLineComments(x[1..] + w) == StripLineComments(x[1..]) + t
    ensures StripLineComments(x + w) == StripLineComments(x) + t
  {
    ConsTail(x, w);
    LineStep(x + w);
    LineStep(x);
    Assoc([x[0]], StripLineComments(x[1..]), t);
  }

  // ---------------------------------------------------------------------------
  // Block comments

  lemma {:induction false} BlockPrefix(a: string, x: string)
    requires !Contains(a, "/*") && !EndsWith(a, "/")
    ensures StripBlockComments(a + x) == a + StripBlockComments(x)
    decreases |a|
  {
    if |a| > 0 {
      var s := a + x;
      ConsTail(a, x);
      if |s| >= 2 {
        HeadPair(a, x, '/', '*');
        BlockStep(s);
        ContainsTail(a, "/*");
        EndsTail(a, "/");
        BlockPrefix(a[1..], x);
        ConsJoin(a, StripBlockComments(x));
      } else {
        assert x == "" && s == a;
      }
    } else {
      assert a + x == x;
    }
  }

  lemma BlockIdentity(a: string)
    requires !Contains(a, "/*")
    ensures StripBlockComments(a) == a
    decreases |a|
  {
    if |a| >= 2 {
      assert !OccursAt(a, "/*", 0);
      ContainsTail(a, "/*");
      BlockIdentity(a[1..]);
    }
  }

  // The first `*/` after a comment body without one is the one that
  // closes it.
  lemma CloseAfter(c: string, b: string)
    requires !Contains(c, "*/")
    ensures CloseIndex(c + "*/" + b) == Some(|c|)
    decreases |c|
  {
    var t := c + "*/" + b;
    if |c| == 0 {
      assert t[0] == '*' && t[1] == '/';
    } else {
      ContainsTail(c, "*/");
      CloseAfter(c[1..], b);
      TailOfJoin(c, "*/", b);
      NoCloseAtStart(c, b);
      CloseStep(t);
    }
  }

  lemma TailOfJoin(c: string, m: string, b: string)
    requires |c| > 0
    ensures (c + m + b)[1..] == c[1..] + m + b
  {
  }

  lemma NoCloseAtStart(c: string, b: string)
    requires |c| > 0 && !Contains(c, "*/")
    ensures !((c + "*/" + b)[0] == '*' && (c + "*/" + b)[1] == '/')
  {
    var t := c + "*/" + b;
    if |c| >= 2 {
      assert !OccursAt(c, "*/", 0);
      assert t[0] == c[0] && t[1] == c[1];
    } else {
      assert t[1] == '*';
    }
  }

  // A text that does not open with the closing marker closes one place
  // later than its tail.
  lemma CloseStep(t: string)
    requires |t| >= 2 && !(t[0] == '*' && t[1] == '/')
    ensures CloseIndex(t[1..]).Some? ==> CloseIndex(t) == Some(CloseIndex(t[1..]).value + 1)
  {
  }

  /** A closed block comment is cut out entirely. */
  lemma BlockCommentGone(c: string, b: string)
    requires !Contains(c, "*/")
    ensures StripBlockComments("/*" + c + "*/" + b) == StripBlockComments(b)
  {
    var s := "/*" + c + "*/" + b;
    assert s[0] == '/' && s[1] == '*' && s[2..] == c + "*/" + b;
    CloseAfter(c, b);
    BlockCloseStep(s, |c|);
    assert s[|c| + 4..] == b;
  }

  // An opening marker that is never closed stays, and removal goes on
  // behind it.
  lemma BlockUnclosed(c: string)
    requires !Contains(c, "*/")
    ensures StripBlockComments("/*" + c) == "/*" + StripBlockComments(c)
  {
    var s := "/*" + c;
    assert s[2..] == c;
    BlockOpenStep(s);
    var t := s[1..];
    assert t == "*" + c;
    if |c| > 0 {
      assert t[0] == '*';
      BlockStep(t);
      assert t[1..] == c;
    }
  }

  lemma {:induction false} CloseSpace(t: string, w: string)
    requires AllSpace(w)
    ensures CloseIndex(t + w) == CloseIndex(t)
    decreases |t|
  {
    var s := t + w;
    if |t| == 0 {
      SpaceLacks(w, "*/");
      assert s == w;
    } else if |t| == 1 {
      if |w| > 0 {
        assert s[1] == w[0];
        assert s[1..] == w;
        SpaceLacks(w, "*/");
      } else {
        assert s == t;
      }
    } else {
      assert s[0] == t[0] && s[1] == t[1];
      assert s[1..] == t[1..] + w;
      CloseSpace(t[1..], w);
    }
  }

  lemma SpaceBlockIdentity(w: string)
    requires AllSpace(w)
    ensures StripBlockComments(w) == w
  {
    SpaceLacks(w, "/*");
    BlockIdentity(w);
  }

  /** Whitespace at the end of the text survives block-comment removal. */
  lemma {:induction false} BlockTrailSpace(y: string, w: string)
    requires AllSpace(w)
    ensures StripBlockComments(y + w) == StripBlockComments(y) + w
    decreases |y|
  {
    if |y| <= 1 {
      BlockTrailShort(y, w);
    } else if y[0] == '/' && y[1] == '*' && CloseIndex(y[2..]).Some? {
      var j := CloseIndex(y[2..]).value;
      BlockTrailSkip(y, w, j);
      BlockTrailSpace(y[j + 4..], w);
    } else {
      BlockTrailKeep(y, w);
      BlockTrailSpace(y[1..], w);
      Assoc([y[0]], StripBlockComments(y[1..]), w);
    }
  }

  lemma BlockTrailShort(y: string, w: string)
    requires |y| <= 1 && AllSpace(w)
    ensures StripBlockComments(y + w) == StripBlockComments(y) + w
  {
    var s := y + w;
    SpaceBlockIdentity(w);
    if |y| == 0 {
      assert s == w;
    } else if |w| > 0 {
      ConsTail(y, w);
      assert IsSpace(s[1]);
      BlockStep(s);
      assert s == [y[0]] + w;
    } else {
      assert s == y;
    }
  }

  lemma BlockTrailSkip(y: string, w: string, j: nat)
    requires |y| >= 2 && y[0] == '/' && y[1] == '*' && CloseIndex(y[2..]) == Some(j)
    requires AllSpace(w)
    ensures j + 4 <= |y|
    ensures StripBlockComments(y + w) == StripBlockComments(y[j + 4..] + w)
    ensures StripBlockComments(y) == StripBlockComments(y[j + 4..])
  {
    var s := y + w;
    SliceJoin(y, w, 2);
    CloseSpace(y[2..], w);
    assert s[0] == '/' && s[1] == '*' && CloseIndex(s[2..]) == Some(j);
    BlockSkip(s, j);
    BlockSkip(y, j);
    SliceJoin(y, w, j + 4);
  }

  lemma BlockSkip(s: string, j: nat)
    requires |s| >= 2 && s[0] == '/' && s[1] == '*' && CloseIndex(s[2..]) == Some(j)
    ensures StripBlockComments(s) == StripBlockComments(s[j + 4..])
  {
  }

  lemma BlockTrailKeep(y: string, w: string)
    requires |y| >= 2 && !(y[0] == '/' && y[1] == '*' && CloseIndex(y[2..]).Some?)
    requires AllSpace(w)
    ensures StripBlockComments(y + w) == [y[0]] + StripBlockComments(y[1..] + w)
    ensures StripBlockComments(y) == [y[0]] + StripBlockComments(y[1..])
  {
    var s := y + w;
    ConsTail(y, w);
    SliceJoin(y, w, 2);
    CloseSpace(y[2..], w);
  }

  // ---------------------------------------------------------------------------
  // Clean on composed text

  lemma LinePadded(w1: string, u: string, w2: string) returns (t: string)
    requires AllSpace(w1) && AllSpace(w2)
    ensures AllSpace(t) && StripLineComments(w1 + u + w2) == w1 + StripLineComments(u) + t
  {
    SpaceLacks(w1, "--");
    assert w1 + u + w2 == w1 + (u + w2);
    LinePrefix(w1, u + w2);
    t := LineTrailSpace(u, w2);
  }

  lemma BlockPadded(w1: string, l: string, t: string)
    requires AllSpace(w1) && AllSpace(t)
    ensures StripBlockComments(w1 + l + t) == w1 + StripBlockComments(l) + t
  {
    BlockSpaceLacks(w1);
    Assoc(w1, l, t);
    BlockPrefix(w1, l + t);
    BlockTrailSpace(l, t);
    Assoc(w1, StripBlockComments(l), t);
  }

  lemma BlockSpaceLacks(w: string)
    requires AllSpace(w)
    ensures !Contains(w, "/*") && !EndsWith(w, "/")
  {
    SpaceLacks(w, "/*");
    SpaceLacks(w, "/");
  }

  /** Whitespace around the text does not reach the cleaned result. */
  lemma CleanPadded(w1: string, u: string, w2: string)
    requires AllSpace(w1) && AllSpace(w2)
    ensures Clean(w1 + u + w2) == Clean(u)
  {
    var t := LinePadded(w1, u, w2);
    var l := StripLineComments(u);
    BlockPadded(w1, l, t);
    CollapsePadded(w1, StripBlockComments(l), t);
  }

  /** Text without comment markers is only whitespace-collapsed. */
  lemma CleanNoComments(t: string)
    requires !Contains(t, "--") && !Contains(t, "/*")
    ensures Clean(t) == Collapse(t)
  {
    LineIdentity(t);
    BlockIdentity(t);
  }

  lemma CleanTrailingComment(a: string, c: string)
    requires !Contains(a, "--") && !EndsWith(a, "-") && '\n' !in c
    ensures Clean(a + "--" + c) == Clean(a)
  {
    assert a + "--" + c == a + ("--" + c);
    LinePrefix(a, "--" + c);
    LineCommentToEnd(c);
    LineIdentity(a);
    assert a + "" == a;
  }

  lemma CleanLeadingComment(c: string, b: string)
    requires '\n' !in c
    ensures Clean("--" + c + "\n" + b) == Clean(b)
  {
    LineCommentToNewline(c, b);
    var l := StripLineComments(b);
    SpaceLacks("\n", "/*");
    SpaceLacks("\n", "/");
    BlockPrefix("\n", l);
    var k := StripBlockComments(l);
    CollapsePadded("\n", k, "");
    assert "\n" + k + "" == "\n" + k;
  }

  lemma CleanBlockComment(a: string, c: string, b: string)
    requires !Contains(a + "/*" + c + "*/" + b, "--") && !Contains(a + b, "--")
    requires !Contains(a, "/*") && !EndsWith(a, "/") && !Contains(c, "*/")
    ensures Clean(a + "/*" + c + "*/" + b) == Clean(a + b)
  {
    var x := "/*" + c + "*/" + b;
    BlockJoin(a, c, b);
    LineIdentity(a + x);
    LineIdentity(a + b);
    BlockPrefix(a, x);
    BlockCommentGone(c, b);
    BlockPrefix(a, b);
    assert StripBlockComments(a + x) == StripBlockComments(a + b);
  }

  lemma BlockJoin(a: string, c: string, b: string)
    ensures a + "/*" + c + "*/" + b == a + ("/*" + c + "*/" + b)
  {
  }

  // ---------------------------------------------------------------------------
  // Upper-casing composed text

  lemma UpperPadded(w1: string, r: string, w2: string)
    requires AllSpace(w1) && AllSpace(w2)
    ensures Upper(w1 + r + w2) == w1 + Upper(r) + w2
  {
    UpperAppend(w1 + r, w2);
    UpperAppend(w1, r);
    UpperOfSpace(w1);
    UpperOfSpace(w2);
  }

  /** Upper-casing around a marker without lower-case letters. */
  lemma UpperAround(a: string, m: string, b: string)
    requires NoLower(m)
    ensures Upper(a + m + b) == Upper(a) + m + Upper(b)
  {
    UpperAppend(a + m, b);
    UpperAppend(a, m);
    UpperIdentity(m);
  }

  /** The conditions the comment lemmas put on a piece of text hold of its
      upper-cased form too. */
  lemma UpperKeepsMarkers(a: string)
    ensures !Contains(a, "--") ==> !Contains(Upper(a), "--")
    ensures !Contains(a, "/*") ==> !Contains(Upper(a), "/*")
    ensures !Contains(a, "*/") ==> !Contains(Upper(a), "*/")
    ensures !EndsWith(a, "-") ==> !EndsWith(Upper(a), "-")
    ensures !EndsWith(a, "/") ==> !EndsWith(Upper(a), "/")
    ensures '\n' !in a ==> '\n' !in Upper(a)
  {
    UpperContains(a, "--");
    UpperContains(a, "/*");
    UpperContains(a, "*/");
    UpperKeepsSymbol(a, '-');
    UpperKeepsSymbol(a, '/');
    UpperKeepsSymbol(a, '\n');
    if |a| > 0 {
      assert Upper(a)[|a| - 1..] == [Upper(a)[|a| - 1]];
      assert a[|a| - 1..] == [a[|a| - 1]];
    }
  }

  lemma UpperLeadingComment(c: string, b: string)
    ensures Upper("--" + c + "\n" + b) == "--" + Upper(c) + "\n" + Upper(b)
  {
    assert "--" + c + "\n" + b == "--" + (c + "\n" + b);
    UpperAppend("--", c + "\n" + b);
    UpperIdentity("--");
    UpperAround(c, "\n", b);
  }

  lemma UpperBlockComment(a: string, c: string, b: string)
    ensures Upper(a + "/*" + c + "*/" + b) == Upper(a) + "/*" + Upper(c) + "*/" + Upper(b)
  {
    assert a + "/*" + c + "*/" + b == a + "/*" + (c + "*/" + b);
    UpperAround(a, "/*", c + "*/" + b);
    UpperAround(c, "*/", b);
  }

  // ---------------------------------------------------------------------------
  // Properties of the gate

  /** Trimming before the other steps changes nothing: whitespace at either
      edge survives comment removal as whitespace, and collapsing drops it. */
  lemma NormalizeSkipsStrip(s: string)
    ensures Normalize(s) == Clean(Upper(s))
  {
    var w1, w2 := StripSplit(s);
    UpperPadded(w1, Strip(s), w2);
    CleanPadded(w1, Upper(Strip(s)), w2);
  }

  /** Whitespace around the statement does not change what the gate sees. */
  lemma PaddingIgnored(w1: string, s: string, w2: string)
    requires AllSpace(w1) && AllSpace(w2)
    ensures Normalize(w1 + s + w2) == Normalize(s)
    ensures IsSafeSql(w1 + s + w2) == IsSafeSql(s)
  {
    StripPadded(w1, s, w2);
  }

  /** The verdict does not depend on letter case. */
  lemma CaseInsensitive(s: string)
    ensures IsSafeSql(Upper(s)) == IsSafeSql(s)
    ensures Normalize(Upper(s)) == Normalize(s)
  {
    NormalizeSkipsStrip(s);
    NormalizeSkipsStrip(Upper(s));
    UpperIdempotent(s);
  }

  /** Empty and whitespace-only text is rejected: nothing is left to start
      with `SELECT`. */
  lemma WhitespaceOnlyUnsafe(s: string)
    requires AllSpace(s)
    ensures Normalize(s) == ""
    ensures !IsSafeSql(s)
  {
    StripAllSpace(s);
    assert Upper("") == "";
    CollapseAllSpace("");
  }

  lemma DangerousShape(k: string)
    requires k in Dangerous
    ensures |k| > 0 && NoSpace(k)
  {
  }

  /** A keyword anywhere in comment-free text, in any letter case and even
      inside an identifier or after a `;`, makes the statement unsafe. */
  lemma KeywordRejected(s: string, k: string)
    requires k in Dangerous
    requires !Contains(s, "--") && !Contains(s, "/*")
    requires Contains(Upper(s), k)
    ensures !IsSafeSql(s)
  {
    NormalizeSkipsStrip(s);
    UpperKeepsMarkers(s);
    CleanNoComments(Upper(s));
    DangerousShape(k);
    CollapseContains(Upper(s), k);
  }

  /** A `--` comment that runs to the end of the text is ignored: the verdict
      is the verdict on the text before it. */
  lemma TrailingLineCommentIgnored(a: string, c: string)
    requires !Contains(a, "--") && !EndsWith(a, "-") && '\n' !in c
    ensures Normalize(a + "--" + c) == Normalize(a)
    ensures IsSafeSql(a + "--" + c) == IsSafeSql(a)
  {
    TrailingNormal(a, c);
    SameVerdict(a + "--" + c, a);
  }

  lemma TrailingNormal(a: string, c: string)
    requires !Contains(a, "--") && !EndsWith(a, "-") && '\n' !in c
    ensures Normalize(a + "--" + c) == Normalize(a)
  {
    var s := a + "--" + c;
    NormalizeSkipsStrip(s);
    NormalizeSkipsStrip(a);
    DashesUpper();
    UpperAround(a, "--", c);
    assert Upper(s) == Upper(a) + "--" + Upper(c);
    TrailingMarkers(a, c);
    CleanTrailingComment(Upper(a), Upper(c));
  }

  lemma DashesUpper()
    ensures NoLower("--")
  {
  }

  lemma TrailingMarkers(a: string, c: string)
    requires !Contains(a, "--") && !EndsWith(a, "-") && '\n' !in c
    ensures !Contains(Upper(a), "--") && !EndsWith(Upper(a), "-") && '\n' !in Upper(c)
  {
    UpperKeepsMarkers(a);
    UpperKeepsMarkers(c);
  }

  /** Statements with the same normal form get the same verdict. */
  lemma SameVerdict(x: string, y: string)
    requires Normalize(x) == Normalize(y)
    ensures IsSafeSql(x) == IsSafeSql(y)
  {
  }

  /** A `--` comment on a line before the statement is ignored. */
  lemma LeadingLineCommentIgnored(c: string, b: string)
    requires '\n' !in c
    ensures Normalize("--" + c + "\n" + b) == Normalize(b)
    ensures IsSafeSql("--" + c + "\n" + b) == IsSafeSql(b)
  {
    NormalizeSkipsStrip("--" + c + "\n" + b);
    NormalizeSkipsStrip(b);
    UpperLeadingComment(c, b);
    UpperKeepsMarkers(c);
    CleanLeadingComment(Upper(c), Upper(b));
  }

  /** A closed block comment between two pieces of comment-free text is
      ignored: the pieces are read as if written next to each other. */
  lemma BlockCommentIgnored(a: string, c: string, b: string)
    requires !Contains(a + "/*" + c + "*/" + b, "--") && !Contains(a + b, "--")
    requires !Contains(a, "/*") && !EndsWith(a, "/") && !Contains(c, "*/")
    ensures Normalize(a + "/*" + c + "*/" + b) == Normalize(a + b)
    ensures IsSafeSql(a + "/*" + c + "*/" + b) == IsSafeSql(a + b)
  {
    var s := a + "/*" + c + "*/" + b;
    NormalizeSkipsStrip(s);
    NormalizeSkipsStrip(a + b);
    UpperBlockComment(a, c, b);
    UpperAppend(a, b);
    UpperKeepsMarkers(s);
    UpperKeepsMarkers(a + b);
    UpperKeepsMarkers(a);
    UpperKeepsMarkers(c);
    CleanBlockComment(Upper(a), Upper(c), Upper(b));
  }
}
