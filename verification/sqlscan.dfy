// The SQL gate with `--` and `/* */` comments removed in one left-to-right
// pass: whichever of `--` and `/*` comes first opens the comment, and text
// inside a comment cannot open another one.
//
// The gate of the chat backend removes all `--` comments first and only then
// the block comments, so a `--` inside a block comment eats the `*/` that
// closes it together with the rest of that line. A keyword after the block
// comment is then hidden from the denylist although the one-pass reading
// finds it outside every comment.
module SqlScan {
  import opened Wrappers
  import opened Text
  import opened Tokens
  import opened SafeSql
  import SafeSqlExamples
  import Fences
  import ChatViews

  /** Removes `--` comments up to the end of their line and closed block
      comments, scanning once from the left. */
  function StripComments(s: string): string
    decreases |s|
  {
    if |s| < 2 then s
    else if s[0] == '-' && s[1] == '-' then StripComments(LineRest(s))
    else if s[0] == '/' && s[1] == '*' then
      match CloseIndex(s[2..])
      case Some(j) => StripComments(s[j + 4..])
      case None => [s[0]] + StripComments(s[1..])
    else [s[0]] + StripComments(s[1..])
  }

  function ScanNormalize(sql: string): (n: string)
    ensures NormalSpacing(n)
  {
    CollapseSpec(StripComments(Upper(Strip(sql))));
    Collapse(StripComments(Upper(Strip(sql))))
  }

  /** The gate with the one-pass comment removal: the same `SELECT` test and
      the same denylist as `SafeSql.IsSafeSql`. */
  function IsSafeSqlScanned(sql: string): (safe: bool)
    ensures safe <==>
      StartsWith(ScanNormalize(sql), "SELECT") && forall k | k in Dangerous :: !Contains(ScanNormalize(sql), k)
  {
    var n := ScanNormalize(sql);
    StartsWith(n, "SELECT") && FirstDangerous(n, Dangerous).None?
  }

  // ---------------------------------------------------------------------------
  // The intended property

  /** A denylisted keyword anywhere outside the comments of the statement
      makes the corrected gate refuse it. */
  lemma ScannedRejectsCode(sql: string, k: string)
    requires k in Dangerous
    requires Contains(StripComments(Upper(Strip(sql))), k)
    ensures !IsSafeSqlScanned(sql)
  {
    DangerousShape(k);
    CollapseContains(StripComments(Upper(Strip(sql))), k);
  }

  /** Every statement the corrected gate passes is free of denylisted
      keywords outside its comments. */
  lemma ScannedCodeClean(sql: string)
    requires IsSafeSqlScanned(sql)
    ensures forall k | k in Dangerous :: !Contains(StripComments(Upper(Strip(sql))), k)
  {
    forall k | k in Dangerous
      ensures !Contains(StripComments(Upper(Strip(sql))), k)
    {
      CodeKeywordRefused(sql, k);
    }
  }

  lemma CodeKeywordRefused(sql: string, k: string)
    requires k in Dangerous
    ensures Contains(StripComments(Upper(Strip(sql))), k) ==> !IsSafeSqlScanned(sql)
  {
    if Contains(StripComments(Upper(Strip(sql))), k) {
      ScannedRejectsCode(sql, k);
    }
  }

  /** The chat handler with the corrected gate: nothing it executes holds a
      denylisted keyword outside the comments of the one-pass reading. */
  function Nl2SqlScanned<V>(request: ChatViews.Request, model: string -> ChatViews.ModelOutcome,
                            db: string -> ChatViews.DbOutcome<V>, audit: ChatViews.AuditOutcome)
    : (out: (ChatViews.Response<V>, ChatViews.Trace))
    ensures forall sql, k | sql in out.1.executed && k in Dangerous ::
      !Contains(StripComments(Upper(Strip(sql))), k)
    ensures |out.1.audited| == 1 <==> out.0.status == 200
  {
    var out := ChatViews.Handle(request, ChatViews.Env(IsSafeSqlScanned, model, db, audit));
    forall sql | sql in out.1.executed
      ensures forall k | k in Dangerous :: !Contains(StripComments(Upper(Strip(sql))), k)
    {
      ScannedCodeClean(sql);
    }
    out
  }

  lemma {:induction false} ScanIdentity(a: string)
    requires !Contains(a, "--") && !Contains(a, "/*")
    ensures StripComments(a) == a
    decreases |a|
  {
    if |a| >= 2 {
      assert !OccursAt(a, "--", 0) && !OccursAt(a, "/*", 0);
      ContainsTail(a, "--");
      ContainsTail(a, "/*");
      ScanIdentity(a[1..]);
    }
  }

  /** On statements without comment markers the corrected gate and the
      backend's gate agree. */
  lemma ScannedAgrees(sql: string)
    requires !Contains(sql, "--") && !Contains(sql, "/*")
    ensures IsSafeSqlScanned(sql) == IsSafeSql(sql)
  {
    var u := Upper(Strip(sql));
    StripAbsent(sql, "--");
    StripAbsent(sql, "/*");
    UpperKeepsMarkers(Strip(sql));
    ScanIdentity(u);
    LineIdentity(u);
    BlockIdentity(u);
    assert ScanNormalize(sql) == Normalize(sql);
  }

  // ---------------------------------------------------------------------------
  // A statement the two gates disagree on

  /** Text without comment markers passes through the scanner untouched,
      whatever follows it. */
  lemma {:induction false} ScanPrefix(a: string, x: string)
    requires '-' !in a && '/' !in a
    ensures StripComments(a + x) == a + StripComments(x)
    decreases |a|
  {
    if |a| > 0 {
      var s := a + x;
      assert s[0] == a[0];
      assert s[1..] == a[1..] + x;
      ScanPrefix(a[1..], x);
    } else {
      assert a + x == x;
    }
  }

  lemma ScanBlockGone(c: string, b: string)
    requires !Contains(c, "*/")
    ensures StripComments("/*" + c + "*/" + b) == StripComments(b)
  {
    var x := c + "*/" + b;
    OpenJoin(c, b);
    OpenHead(x, |c|);
    CloseAfter(c, b);
    CloseDrop(c, b);
    ScanSkip("/*" + x, |c|);
  }

  lemma OpenJoin(c: string, b: string)
    ensures "/*" + c + "*/" + b == "/*" + (c + "*/" + b)
  {
  }

  lemma OpenHead(x: string, n: nat)
    requires n <= |x|
    ensures ("/*" + x)[0] == '/' && ("/*" + x)[1] == '*'
    ensures ("/*" + x)[2..] == x && ("/*" + x)[n + 2..] == x[n..]
  {
  }

  lemma CloseDrop(c: string, b: string)
    ensures (c + "*/" + b)[|c| + 2..] == b
  {
  }

  lemma ScanSkip(s: string, j: nat)
    requires |s| >= 2 && s[0] == '/' && s[1] == '*' && CloseIndex(s[2..]) == Some(j)
    ensures StripComments(s) == StripComments(s[j + 4..])
  {
    assert s[0] != '-';
    var t := s[2..];
    assert CloseIndex(t) == Some(j);
  }

  // The statement the two gates disagree on: `SELECT 1 /* -- */; DROP
  // TABLE PROBLEM;`, a newline, and an empty block comment. It is put
  // together from short pieces so that each way of reading it is a
  // regrouping of the same pieces.

  const HiddenLead: string := "SELECT 1 "
  const HiddenCode: string := "; DROP TABLE PROBLEM;"
  const HiddenDrop: string :=
    HiddenLead + "/*" + " " + "--" + " " + "*/" + HiddenCode + "\n" + "/* " + "*/"

  lemma LineRegroup(l: string, o: string, s1: string, d: string, s2: string,
                    cl: string, t: string, nl: string, e1: string, e2: string)
    ensures l + o + s1 + d + s2 + cl + t + nl + e1 + e2
         == (l + o + s1) + (d + (s2 + cl + t) + nl + (e1 + e2))
  {
  }

  lemma BlockRegroup(l: string, o: string, s1: string, d: string, s2: string,
                     cl: string, t: string, nl: string, e1: string, e2: string)
    ensures l + o + s1 + d + s2 + cl + t + nl + e1 + e2
         == l + (o + (s1 + d + s2) + cl + (t + nl + (e1 + e2)))
  {
  }

  lemma LeftoverRegroup(l: string, o: string, s1: string, nl: string, e1: string, e2: string)
    ensures (l + o + s1) + (nl + (e1 + e2)) == l + (o + (s1 + nl + e1) + e2 + "")
  {
  }

  /** Character facts about the pieces. */
  lemma PieceChars()
    ensures '-' !in HiddenLead && '/' !in HiddenLead && NoLower(HiddenLead)
    ensures '\n' !in HiddenCode && NoLower(HiddenCode)
    ensures '-' !in HiddenCode && '/' !in HiddenCode
  {
    LeadChars();
    CodeChars();
  }

  lemma LeadChars()
    ensures '-' !in HiddenLead && '/' !in HiddenLead && NoLower(HiddenLead)
  {
  }

  lemma CodeChars()
    ensures '\n' !in HiddenCode && NoLower(HiddenCode)
    ensures forall i :: 0 <= i < |HiddenCode| ==> HiddenCode[i] !in "-/"
  {
  }

  lemma NoEndChar(a: string, c: char)
    requires c !in a
    ensures !EndsWith(a, [c])
  {
    if |a| > 0 {
      assert a[|a| - 1..] == [a[|a| - 1]];
    }
  }

  lemma NoLowerJoin(a: string, b: string)
    requires NoLower(a) && NoLower(b)
    ensures NoLower(a + b)
  {
  }

  lemma HiddenDropLetters()
    ensures Upper(HiddenDrop) == HiddenDrop
    ensures NoEdgeSpace(HiddenDrop)
  {
    PieceChars();
    var p := HiddenLead;
    NoLowerJoin(p, "/*");
    p := p + "/*";
    NoLowerJoin(p, " ");
    p := p + " ";
    NoLowerJoin(p, "--");
    p := p + "--";
    NoLowerJoin(p, " ");
    p := p + " ";
    NoLowerJoin(p, "*/");
    p := p + "*/";
    NoLowerJoin(p, HiddenCode);
    p := p + HiddenCode;
    NoLowerJoin(p, "\n");
    p := p + "\n";
    NoLowerJoin(p, "/* ");
    p := p + "/* ";
    NoLowerJoin(p, "*/");
    UpperIdentity(HiddenDrop);
    HiddenDropEdges();
  }

  lemma HiddenDropEdges()
    ensures NoEdgeSpace(HiddenDrop)
  {
    assert HiddenDrop[|HiddenDrop| - 1] == '/';
    assert HiddenLead[0] == 'S';
  }

  lemma InnerNoClose(c: string)
    requires c == " " + "\n" + "/* "
    ensures !Contains(c, "*/")
  {
    assert c == " \n/* ";
    forall i | 0 <= i <= |c|
      ensures !OccursAt(c, "*/", i)
    {
      if i + 2 <= |c| {
        assert c[i] != "*/"[0] || c[i + 1] != "*/"[1];
      }
    }
  }

  /** What the backend's comment removal leaves of the statement. */
  lemma HiddenDropCleaned()
    ensures StripBlockComments(StripLineComments(HiddenDrop)) == HiddenLead
  {
    var a := HiddenLead + "/*" + " ";
    var c := " " + "*/" + HiddenCode;
    var e := "/* " + "*/";
    LineRegroup(HiddenLead, "/*", " ", "--", " ", "*/", HiddenCode, "\n", "/* ", "*/");
    PieceChars();
    MissingChar(a, "--", 0);
    NoEndChar(a, '-');
    LinePrefix(a, "--" + c + "\n" + e);
    LineCommentToNewline(c, e);
    MissingChar(e, "--", 0);
    LineIdentity(e);
    assert StripLineComments(HiddenDrop) == a + ("\n" + e);
    var inner := " " + "\n" + "/* ";
    LeftoverRegroup(HiddenLead, "/*", " ", "\n", "/* ", "*/");
    MissingChar(HiddenLead, "/*", 0);
    NoEndChar(HiddenLead, '/');
    BlockPrefix(HiddenLead, "/*" + inner + "*/" + "");
    InnerNoClose(inner);
    BlockCommentGone(inner, "");
    assert HiddenLead + "" == HiddenLead;
  }

  /** Text in the gate's normal form, with whitespace after it, collapses
      to itself. */
  lemma CollapseNormalPadded(q: string, w: string)
    requires SafeSqlExamples.NormalForm(q) && AllSpace(w)
    ensures Collapse(q + w) == q
  {
    CollapseNormal(q);
    CollapseTrailing(q, w);
  }

  lemma CollapseTrailing(q: string, w: string)
    requires AllSpace(w)
    ensures Collapse(q + w) == Collapse(q)
  {
    CollapsePadded("", q, w);
    assert "" + q + w == q + w;
  }

  lemma CollapseNormal(q: string)
    requires SafeSqlExamples.NormalForm(q)
    ensures Collapse(q) == q
  {
    SafeSqlExamples.NormalFormFixed(q);
    NormalizeSkipsStrip(q);
    UpperIdentity(q);
    MissingChar(q, "--", 0);
    MissingChar(q, "/*", 0);
    CleanNoComments(q);
  }

  lemma SelectOneCollapsed()
    ensures Collapse("SELECT 1 ") == "SELECT 1"
  {
    SafeSqlExamples.PlainSelectOne();
    CollapseNormalPadded("SELECT 1", " ");
    assert "SELECT 1" + " " == "SELECT 1 ";
  }

  /** The backend's gate passes the statement, although the one-pass
      reading finds a `DROP` outside every comment of it. */
  lemma HiddenDropPasses()
    ensures IsSafeSql(HiddenDrop)
    ensures Contains(StripComments(Upper(Strip(HiddenDrop))), "DROP")
  {
    HiddenDropLetters();
    NormalizeSkipsStrip(HiddenDrop);
    HiddenDropCleaned();
    SelectOneCollapsed();
    assert HiddenLead == "SELECT 1 ";
    assert Normalize(HiddenDrop) == "SELECT 1";
    SafeSqlExamples.PlainSelectOne();
    SafeSqlExamples.PlainSelectSafe("SELECT 1");
    SafeSqlExamples.NormalFormFixed("SELECT 1");
    HiddenDropCode();
    StripIdentity(HiddenDrop);
  }

  lemma HiddenDropScanned()
    ensures StripComments(HiddenDrop) == HiddenLead + (HiddenCode + "\n" + StripComments("/* " + "*/"))
  {
    var inner := " " + "--" + " ";
    var rest := HiddenCode + "\n" + ("/* " + "*/");
    BlockRegroup(HiddenLead, "/*", " ", "--", " ", "*/", HiddenCode, "\n", "/* ", "*/");
    PieceChars();
    ScanPrefix(HiddenLead, "/*" + inner + "*/" + rest);
    MissingChar(inner, "*/", 0);
    ScanBlockGone(inner, rest);
    ScanPrefix(HiddenCode + "\n", "/* " + "*/");
  }

  lemma ContainsWithin(s: string, a: string, c: string, b: string, k: string)
    requires s == a + (c + b) && Contains(c, k)
    ensures Contains(s, k)
  {
    ContainsInfix(a, c, b, k);
    assert a + c + b == a + (c + b);
  }

  lemma DropInCode()
    ensures Contains(HiddenCode + "\n", "DROP")
  {
    assert OccursAt(HiddenCode + "\n", "DROP", 2);
  }

  /** The comment-free text of the statement holds the `DROP`. */
  lemma HiddenDropCode()
    ensures Contains(StripComments(HiddenDrop), "DROP")
  {
    HiddenDropScanned();
    DropInCode();
    ContainsWithin(StripComments(HiddenDrop), HiddenLead, HiddenCode + "\n", StripComments("/* " + "*/"), "DROP");
  }

  /** The corrected gate refuses the statement. */
  lemma HiddenDropRejected()
    ensures !IsSafeSqlScanned(HiddenDrop)
  {
    HiddenDropLetters();
    StripIdentity(HiddenDrop);
    HiddenDropCode();
    ScannedRejectsCode(HiddenDrop, "DROP");
  }

  // ---------------------------------------------------------------------------
  // The statement reaching the handlers

  /** A reply holding just the statement is used as it is. */
  lemma HiddenDropReply()
    ensures Fences.CleanReply(HiddenDrop) == HiddenDrop
  {
    HiddenDropLetters();
    HiddenDropNoTick();
    Fences.BareReply(HiddenDrop);
  }

  lemma HiddenDropNoTick()
    ensures '`' !in HiddenDrop
  {
  }

  /** When the model answers with the statement, the backend's handler runs
      it against the database. */
  lemma HandlerRunsHiddenDrop<V>(request: ChatViews.Request, model: string -> ChatViews.ModelOutcome,
                                 db: string -> ChatViews.DbOutcome<V>, audit: ChatViews.AuditOutcome)
    requires !ChatViews.Falsy(request.question)
    requires model(request.question.value) == ChatViews.Completion(HiddenDrop)
    ensures ChatViews.Nl2Sql(request, model, db, audit).1.executed == [HiddenDrop]
  {
    var env := ChatViews.Env(IsSafeSql, model, db, audit);
    HiddenDropReply();
    HiddenDropPasses();
    assert ChatViews.Extracted(request, env) == HiddenDrop;
    if db(HiddenDrop).DbFailure? {
      ChatViews.DatabaseFails(request, env);
    } else {
      ChatViews.Succeeds(request, env);
    }
  }

  /** The handler with the corrected gate refuses it with 400 and runs nothing. */
  lemma ScannedHandlerRefuses<V>(request: ChatViews.Request, model: string -> ChatViews.ModelOutcome,
                                 db: string -> ChatViews.DbOutcome<V>, audit: ChatViews.AuditOutcome)
    requires !ChatViews.Falsy(request.question)
    requires model(request.question.value) == ChatViews.Completion(HiddenDrop)
    ensures Nl2SqlScanned(request, model, db, audit).0.status == 400
    ensures Nl2SqlScanned(request, model, db, audit).1.executed == []
  {
    var env := ChatViews.Env(IsSafeSqlScanned, model, db, audit);
    HiddenDropReply();
    HiddenDropRejected();
    assert ChatViews.Extracted(request, env) == HiddenDrop;
    ChatViews.UnsafeRejected(request, env);
  }
}
