/**
 Concrete statements run through the SQL gate: comments hide keywords,
 while a second statement after `;` or a keyword inside an identifier does
 not slip through, and only text that starts with `SELECT` passes.

 The verifier does not compute the gate on a string literal by itself, so
 each example first establishes, one fact at a time, that the literal is
 already in the gate's normal form, and then uses the general lemmas.
 */
module SafeSqlExamples {
  import opened Text
  import opened Tokens
  import opened SafeSql

  /** Text that the gate's normalisation leaves as it is: upper case, no
      comment markers, and single spaces between non-blank characters. */
  predicate NormalForm(q: string)
  {
    && NoLower(q) && NoEdgeSpace(q) && '-' !in q && '/' !in q
    && (forall i :: 0 <= i < |q| && IsSpace(q[i]) ==> q[i] == ' ')
    && (forall i :: 0 <= i < |q| - 1 ==> q[i] != ' ' || q[i + 1] != ' ')
  }

  /** A `SELECT` in normal form without the letters A, D, I, N and U, each
      keyword of the denylist having one of them. */
  predicate PlainSelect(q: string)
  {
    && NormalForm(q) && StartsWith(q, "SELECT")
    && forall i :: 0 <= i < |q| ==> q[i] !in "ADINU"
  }

  lemma Lacks(q: string, c: char)
    requires forall i :: 0 <= i < |q| ==> q[i] !in "ADINU"
    requires c in "ADINU"
    ensures c !in q
  {
  }

  lemma NormalFormFixed(q: string)
    requires NormalForm(q)
    ensures Normalize(q) == q
  {
    NormalizeSkipsStrip(q);
    UpperIdentity(q);
    MissingChar(q, "--", 0);
    MissingChar(q, "/*", 0);
    CleanNoComments(q);
    forall i | 0 <= i <= |q|
      ensures !OccursAt(q, "  ", i)
    {
      if i < |q| - 1 {
        assert q[i] != "  "[0] || q[i + 1] != "  "[1];
      }
    }
    CollapseIdentity(q);
  }

  lemma PlainSelectSafe(q: string)
    requires PlainSelect(q)
    ensures IsSafeSql(q)
  {
    NormalFormFixed(q);
    Lacks(q, 'A');
    Lacks(q, 'D');
    Lacks(q, 'I');
    Lacks(q, 'U');
    KeywordsMissing(q);
  }

  /** Each keyword of the denylist has one of the letters A, D, I and U. */
  lemma KeywordsMissing(q: string)
    requires 'A' !in q && 'D' !in q && 'I' !in q && 'U' !in q
    ensures forall k | k in Dangerous :: !Contains(q, k)
  {
    MissingChar(q, "INSERT", 0);
    MissingChar(q, "UPDATE", 0);
    MissingChar(q, "DELETE", 0);
    MissingChar(q, "DROP", 0);
    MissingChar(q, "CREATE", 3);
    MissingChar(q, "ALTER", 0);
    MissingChar(q, "TRUNCATE", 2);
  }

  lemma SelectAllSpacing()
    ensures forall i :: 0 <= i < 21 && IsSpace("SELECT * FROM PROBLEM"[i]) ==> "SELECT * FROM PROBLEM"[i] == ' '
    ensures forall i :: 0 <= i < 20 ==> "SELECT * FROM PROBLEM"[i] != ' ' || "SELECT * FROM PROBLEM"[i + 1] != ' '
  {
  }

  lemma SelectAllLetters()
    ensures NoLower("SELECT * FROM PROBLEM")
  {
  }

  lemma SelectAllMissing()
    ensures forall i :: 0 <= i < |"SELECT * FROM PROBLEM"| ==> "SELECT * FROM PROBLEM"[i] !in "ADINU"
  {
  }

  lemma PlainSelectAll()
    ensures PlainSelect("SELECT * FROM PROBLEM")
  {
    SelectAllSpacing();
    SelectAllLetters();
    SelectAllMissing();
    var q := "SELECT * FROM PROBLEM";
    assert NoEdgeSpace(q);
    assert '-' !in q && '/' !in q;
    assert StartsWith(q, "SELECT");
  }

  lemma OneSpacing()
    ensures forall i :: 0 <= i < |"SELECT 1"| && IsSpace("SELECT 1"[i]) ==> "SELECT 1"[i] == ' '
    ensures forall i :: 0 <= i < |"SELECT 1"| - 1 ==> "SELECT 1"[i] != ' ' || "SELECT 1"[i + 1] != ' '
  {
  }

  lemma OneLetters()
    ensures NoLower("SELECT 1") && NoEdgeSpace("SELECT 1")
    ensures '-' !in "SELECT 1" && '/' !in "SELECT 1"
  {
  }

  lemma OneMissing()
    ensures forall i :: 0 <= i < |"SELECT 1"| ==> "SELECT 1"[i] !in "ADINU"
    ensures StartsWith("SELECT 1", "SELECT")
  {
  }

  lemma PlainSelectOne()
    ensures PlainSelect("SELECT 1")
  {
    OneSpacing();
    OneLetters();
    OneMissing();
  }

  lemma SelectAllExample()
    ensures IsSafeSql("SELECT * FROM PROBLEM")
  {
    PlainSelectAll();
    PlainSelectSafe("SELECT * FROM PROBLEM");
  }

  lemma TrailingCommentShape()
    ensures "SELECT * FROM PROBLEM -- DROP TABLE X"
         == "SELECT * FROM PROBLEM " + "--" + " DROP TABLE X"
    ensures "SELECT * FROM PROBLEM " == "" + "SELECT * FROM PROBLEM" + " "
    ensures '-' !in "SELECT * FROM PROBLEM " && '\n' !in " DROP TABLE X"
  {
  }

  lemma NoDashEnd(a: string)
    requires |a| > 0 && '-' !in a
    ensures !Contains(a, "--") && !EndsWith(a, "-")
  {
    MissingChar(a, "--", 0);
    assert a[|a| - 1..] == [a[|a| - 1]];
  }

  /** A keyword inside a trailing `--` comment is ignored. */
  lemma TrailingCommentExample()
    ensures IsSafeSql("SELECT * FROM PROBLEM -- DROP TABLE X")
  {
    TrailingCommentShape();
    TrailingAfter("SELECT * FROM PROBLEM ", "SELECT * FROM PROBLEM", " DROP TABLE X");
    SelectAllExample();
  }

  /** A statement followed by a space and a trailing `--` comment gets the
      verdict of the statement alone. */
  lemma TrailingAfter(a: string, q: string, c: string)
    requires a == "" + q + " " && '-' !in a && '\n' !in c
    ensures IsSafeSql(a + "--" + c) == IsSafeSql(q)
  {
    NoDashEnd(a);
    TrailingLineCommentIgnored(a, c);
    SpacePads();
    PaddingIgnored("", q, " ");
  }

  lemma SpacePads()
    ensures AllSpace("") && AllSpace(" ")
  {
  }

  lemma LeadingCommentShape()
    ensures "-- note\nSELECT 1" == "--" + " note" + "\n" + "SELECT 1"
    ensures '\n' !in " note"
  {
  }

  /** A comment line before the statement is tolerated. */
  lemma LeadingCommentExample()
    ensures IsSafeSql("-- note\nSELECT 1")
  {
    LeadingCommentShape();
    LeadingLineCommentIgnored(" note", "SELECT 1");
    PlainSelectOne();
    PlainSelectSafe("SELECT 1");
  }

  lemma BlockCommentShape()
    ensures "SELECT 1 /* DROP */" == "SELECT 1 " + "/*" + " DROP " + "*/" + ""
    ensures "SELECT 1 " + "" == "" + "SELECT 1" + " "
    ensures '-' !in "SELECT 1 /* DROP */" && '/' !in "SELECT 1 " && '*' !in " DROP "
  {
  }

  /** A keyword inside a closed block comment is ignored. */
  lemma BlockCommentExample()
    ensures IsSafeSql("SELECT 1 /* DROP */")
  {
    var a, c := "SELECT 1 ", " DROP ";
    BlockCommentShape();
    MissingChar(a + "/*" + c + "*/" + "", "--", 0);
    MissingChar(a + "", "--", 0);
    MissingChar(a, "/*", 0);
    MissingChar(c, "*/", 0);
    assert a[|a| - 1..] == [a[|a| - 1]];
    BlockCommentIgnored(a, c, "");
    PaddingIgnored("", "SELECT 1", " ");
    PlainSelectOne();
    PlainSelectSafe("SELECT 1");
  }

  lemma StackedCase()
    ensures Upper("SELECT * FROM PROBLEM; DROP TABLE PROBLEM;") == "SELECT * FROM PROBLEM; DROP TABLE PROBLEM;"
  {
    StackedLetters();
    UpperIdentity("SELECT * FROM PROBLEM; DROP TABLE PROBLEM;");
  }

  lemma StackedLetters()
    ensures NoLower("SELECT * FROM PROBLEM; DROP TABLE PROBLEM;")
  {
  }

  lemma StackedNoDash()
    ensures '-' !in "SELECT * FROM PROBLEM; DROP TABLE PROBLEM;"
  {
  }

  lemma StackedNoSlash()
    ensures '/' !in "SELECT * FROM PROBLEM; DROP TABLE PROBLEM;"
  {
  }

  lemma StackedDrop()
    ensures OccursAt("SELECT * FROM PROBLEM; DROP TABLE PROBLEM;", "DROP", 23)
  {
  }

  lemma StackedShape()
    ensures '-' !in "SELECT * FROM PROBLEM; DROP TABLE PROBLEM;"
    ensures '/' !in "SELECT * FROM PROBLEM; DROP TABLE PROBLEM;"
    ensures OccursAt("SELECT * FROM PROBLEM; DROP TABLE PROBLEM;", "DROP", 23)
  {
    StackedNoDash();
    StackedNoSlash();
    StackedDrop();
  }

  /** A second statement after `;` is caught by the denylist. */
  lemma StackedStatementExample()
    ensures !IsSafeSql("SELECT * FROM PROBLEM; DROP TABLE PROBLEM;")
  {
    var s := "SELECT * FROM PROBLEM; DROP TABLE PROBLEM;";
    StackedShape();
    StackedCase();
    MissingChar(s, "--", 0);
    MissingChar(s, "/*", 0);
    KeywordRejected(s, "DROP");
  }

  lemma IdentifierCase()
    ensures Upper("SELECT Created_at FROM X") == "SELECT CREATED_AT FROM X"
  {
  }

  lemma IdentifierMarkers()
    ensures OccursAt("SELECT CREATED_AT FROM X", "CREATE", 7)
    ensures '-' !in "SELECT Created_at FROM X" && '/' !in "SELECT Created_at FROM X"
  {
  }

  lemma IdentifierShape()
    ensures Upper("SELECT Created_at FROM X") == "SELECT CREATED_AT FROM X"
    ensures OccursAt("SELECT CREATED_AT FROM X", "CREATE", 7)
    ensures '-' !in "SELECT Created_at FROM X" && '/' !in "SELECT Created_at FROM X"
  {
    IdentifierCase();
    IdentifierMarkers();
  }

  /** The denylist matches substrings, so a column name such as
      `Created_at` makes an innocent query unsafe. */
  lemma IdentifierExample()
    ensures !IsSafeSql("SELECT Created_at FROM X")
  {
    var s := "SELECT Created_at FROM X";
    IdentifierShape();
    MissingChar(s, "--", 0);
    MissingChar(s, "/*", 0);
    KeywordRejected(s, "CREATE");
  }

  lemma DeleteCase()
    ensures Upper("delete from problem") == "DELETE FROM PROBLEM"
  {
  }

  lemma DeleteSpacing()
    ensures forall i :: 0 <= i < |"DELETE FROM PROBLEM"| && IsSpace("DELETE FROM PROBLEM"[i]) ==>
      "DELETE FROM PROBLEM"[i] == ' '
    ensures forall i :: 0 <= i < |"DELETE FROM PROBLEM"| - 1 ==>
      "DELETE FROM PROBLEM"[i] != ' ' || "DELETE FROM PROBLEM"[i + 1] != ' '
  {
  }

  lemma DeleteLetters()
    ensures NoLower("DELETE FROM PROBLEM") && NoEdgeSpace("DELETE FROM PROBLEM")
    ensures '-' !in "DELETE FROM PROBLEM" && '/' !in "DELETE FROM PROBLEM"
    ensures !StartsWith("DELETE FROM PROBLEM", "SELECT")
  {
  }

  lemma DeleteShape()
    ensures Upper("delete from problem") == "DELETE FROM PROBLEM"
    ensures NormalForm("DELETE FROM PROBLEM")
    ensures !StartsWith("DELETE FROM PROBLEM", "SELECT")
  {
    DeleteCase();
    DeleteSpacing();
    DeleteLetters();
  }

  /** A statement other than `SELECT`, in any letter case, fails the first
      test. */
  lemma DeleteExample()
    ensures !IsSafeSql("delete from problem")
  {
    DeleteShape();
    CaseInsensitive("delete from problem");
    NormalFormFixed("DELETE FROM PROBLEM");
  }
}
