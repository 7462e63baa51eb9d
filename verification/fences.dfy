/**
 Cleanup of the language model's reply before it reaches the SQL gate
 (chat_views.py, lines 114-119): the reply is trimmed, every "```sql" and
 the whitespace after it are removed, then every "```" and the whitespace
 after it, and the result is trimmed again.
 */
module Fences {
  import opened Text

  const SqlFence: string := "```sql"
  const Fence: string := "```"

  /** `re.sub(m + r'\s*', '', s)` for a literal marker `m`: scanning left to
      right, each occurrence of `m` is dropped together with the whitespace
      run after it, and scanning resumes behind that run. */
  function RemoveMarker(s: string, m: string): string
    requires |m| > 0
    decreases |s|
  {
    if |s| == 0 then ""
    else if StartsWith(s, m) then RemoveMarker(LStrip(s[|m|..]), m)
    else [s[0]] + RemoveMarker(s[1..], m)
  }

  /** The SQL statement extracted from the model's reply `content`. */
  function CleanReply(content: string): (sql: string)
    ensures NoEdgeSpace(sql)
    ensures !Contains(sql, Fence) && !Contains(sql, SqlFence)
  {
    var once := RemoveMarker(Strip(content), SqlFence);
    var twice := RemoveMarker(once, Fence);
    NoFenceLeft(once);
    StripAbsent(twice, Fence);
    AbsentExtension(Strip(twice), Fence, SqlFence);
    Strip(twice)
  }

  // ---------------------------------------------------------------------------
  // The marker remover

  lemma {:induction false} RemoveMarkerAbsent(s: string, m: string)
    requires |m| > 0 && !Contains(s, m)
    ensures RemoveMarker(s, m) == s
    decreases |s|
  {
    if |s| > 0 {
      assert !OccursAt(s, m, 0);
      assert !StartsWith(s, m);
      ContainsTail(s, m);
      RemoveMarkerAbsent(s[1..], m);
    }
  }

  /** Text in front that cannot start the marker passes through unchanged. */
  lemma {:induction false} RemoveMarkerSkip(a: string, b: string, m: string)
    requires |m| > 0 && m[0] !in a
    ensures RemoveMarker(a + b, m) == a + RemoveMarker(b, m)
    decreases |a|
  {
    if |a| == 0 {
      assert a + b == b;
    } else {
      var s := a + b;
      assert s[0] == a[0] && s[0] != m[0];
      assert !StartsWith(s, m);
      assert s[1..] == a[1..] + b;
      RemoveMarkerSkip(a[1..], b, m);
    }
  }

  /** A reply that begins with a back-tick after marker removal began with
      one before. */
  lemma HeadTick(t: string)
    ensures |RemoveMarker(t, Fence)| > 0 && RemoveMarker(t, Fence)[0] == '`' ==> |t| > 0 && t[0] == '`'
  {
  }

  lemma HeadTicks(t: string)
    ensures |RemoveMarker(t, Fence)| > 1 && RemoveMarker(t, Fence)[0] == '`' && RemoveMarker(t, Fence)[1] == '`'
      ==> |t| > 1 && t[0] == '`' && t[1] == '`'
  {
    if |t| > 0 && !StartsWith(t, Fence) {
      var r' := RemoveMarker(t[1..], Fence);
      assert RemoveMarker(t, Fence) == [t[0]] + r';
      HeadTick(t[1..]);
    }
  }

  /** Removing every "```" leaves none: a back-tick kept in front of a
      removed fence never joins the text after it into a new one. */
  lemma {:induction false} NoFenceLeft(s: string)
    ensures !Contains(RemoveMarker(s, Fence), Fence)
    decreases |s|
  {
    if |s| > 0 {
      if StartsWith(s, Fence) {
        NoFenceLeft(LStrip(s[|Fence|..]));
      } else {
        NoFenceLeft(s[1..]);
        NoFenceKept(s);
      }
    }
  }

  lemma MarkerStep(s: string, m: string)
    requires |m| > 0 && |s| > 0 && !StartsWith(s, m)
    ensures RemoveMarker(s, m) == [s[0]] + RemoveMarker(s[1..], m)
  {
  }

  /** Keeping a character that does not start a fence creates no fence. */
  lemma NoFenceKept(s: string)
    requires |s| > 0 && !StartsWith(s, Fence)
    requires !Contains(RemoveMarker(s[1..], Fence), Fence)
    ensures !Contains(RemoveMarker(s, Fence), Fence)
  {
    var r', r := RemoveMarker(s[1..], Fence), RemoveMarker(s, Fence);
    MarkerStep(s, Fence);
    FenceHead(s);
    OccursShift(r, Fence);
    assert r[1..] == r';
  }

  /** A fence at the front of the output after a kept character means the
      input itself started with a fence. */
  lemma FenceHead(s: string)
    requires |s| > 0
    ensures OccursAt([s[0]] + RemoveMarker(s[1..], Fence), Fence, 0) ==> StartsWith(s, Fence)
  {
    var r' := RemoveMarker(s[1..], Fence);
    var r := [s[0]] + r';
    if OccursAt(r, Fence, 0) {
      FenceChars();
      assert r[0] == Fence[0] && r[1] == Fence[1] && r[2] == Fence[2];
      assert r'[0] == r[1] && r'[1] == r[2];
      HeadTicks(s[1..]);
      assert s[..3] == Fence;
    }
  }

  lemma FenceChars()
    ensures Fence == ['`', '`', '`']
  {
  }

  // ---------------------------------------------------------------------------
  // Properties of the cleanup

  /** A reply without back-ticks and without edge whitespace is used as it is. */
  lemma PlainReply(w1: string, q: string, w2: string)
    requires AllSpace(w1) && AllSpace(w2) && NoEdgeSpace(q) && '`' !in q
    ensures CleanReply(w1 + q + w2) == q
  {
    StripPadded(w1, q, w2);
    StripIdentity(q);
    RemoveMarkerSkip(q, "", SqlFence);
    RemoveMarkerSkip(q, "", Fence);
    assert q + "" == q;
  }

  /** A reply that is just the statement, with no padding, is used as it is. */
  lemma BareReply(q: string)
    requires NoEdgeSpace(q) && '`' !in q
    ensures CleanReply(q) == q
  {
    StripIdentity(q);
    TickMarkers();
    RemoveMarkerSkip(q, "", SqlFence);
    RemoveMarkerSkip(q, "", Fence);
    EmptyRight(q);
    CleanReplyOf(q, q, q);
  }

  lemma TickMarkers()
    ensures |SqlFence| > 0 && SqlFence[0] == '`' && |Fence| > 0 && Fence[0] == '`'
  {
  }

  lemma EmptyRight(q: string)
    ensures q + "" == q
  {
  }

  lemma OpeningFence(w: string, rest: string)
    requires AllSpace(w) && |rest| > 0 && !IsSpace(rest[0]) && rest[0] != '`'
    ensures RemoveMarker(SqlFence + w + rest, SqlFence) == RemoveMarker(rest, SqlFence)
  {
    var s := SqlFence + w + rest;
    assert StartsWith(s, SqlFence);
    assert s[|SqlFence|..] == w + rest;
    LStripAppend(w, rest);
    LeadLenUnique(rest, 0);
  }

  lemma ClosingFence(p: string)
    requires '`' !in p
    ensures RemoveMarker(p + Fence, SqlFence) == p + Fence
    ensures RemoveMarker(p + Fence, Fence) == p
  {
    RemoveMarkerSkip(p, Fence, SqlFence);
    RemoveMarkerAbsent(Fence, SqlFence);
    RemoveMarkerSkip(p, Fence, Fence);
    assert StartsWith(Fence, Fence) && Fence[|Fence|..] == "";
    assert LStrip("") == "";
    assert p + "" == p;
  }

  lemma Regroup(a: string, b: string, c: string, d: string, e: string)
    ensures a + b + c + d + e == a + b + (c + d + e)
  {
  }

  lemma FenceMarkers(w: string, q: string, w2: string)
    requires AllSpace(w) && |q| > 0 && !IsSpace(q[0]) && '`' !in q + w2
    ensures RemoveMarker(RemoveMarker(SqlFence + w + q + w2 + Fence, SqlFence), Fence) == q + w2
  {
    Regroup(SqlFence, w, q, w2, Fence);
    OpeningFence(w, q + w2 + Fence);
    ClosingFence(q + w2);
  }

  lemma CleanReplyOf(s: string, once: string, twice: string)
    requires once == RemoveMarker(Strip(s), SqlFence) && twice == RemoveMarker(once, Fence)
    ensures CleanReply(s) == Strip(twice)
  {
  }

  lemma FencedEdges(w: string, q: string, w2: string)
    ensures NoEdgeSpace(SqlFence + w + q + w2 + Fence)
  {
    var s := SqlFence + w + q + w2 + Fence;
    assert s[0] == SqlFence[0];
    assert s[|s| - 1] == Fence[2];
  }

  lemma TrailingPad(q: string, w2: string)
    requires NoEdgeSpace(q) && AllSpace(w2)
    ensures Strip(q + w2) == q
  {
    if |q| == 0 {
      assert q + w2 == w2;
      StripAllSpace(w2);
    } else {
      var s := q + w2;
      assert s[0] == q[0];
      LeadLenUnique(s, 0);
      TrailLenUnique(q, 0);
      RStripAppend(q, w2);
      assert Strip(s) == RStrip(LStrip(s));
    }
  }

  /** A statement wrapped in a "```sql" fence comes out bare. */
  lemma FencedReply(w: string, q: string, w2: string)
    requires AllSpace(w) && AllSpace(w2)
    requires |q| > 0 && NoEdgeSpace(q) && '`' !in q
    ensures CleanReply(SqlFence + w + q + w2 + Fence) == q
  {
    var s := SqlFence + w + q + w2 + Fence;
    FencedEdges(w, q, w2);
    StripIdentity(s);
    assert '`' !in q + w2;
    FenceMarkers(w, q, w2);
    TrailingPad(q, w2);
    CleanReplyOf(s, RemoveMarker(s, SqlFence), q + w2);
  }

  /** Cleaning a cleaned statement changes nothing more. */
  lemma CleanReplyIdempotent(s: string)
    ensures CleanReply(CleanReply(s)) == CleanReply(s)
  {
    var r := CleanReply(s);
    StripIdentity(r);
    RemoveMarkerAbsent(r, SqlFence);
    RemoveMarkerAbsent(r, Fence);
  }

  /** The reply shape the prompt usually produces. */
  lemma FenceExample()
    ensures CleanReply("```sql\nSELECT 1\n```") == "SELECT 1"
  {
    assert "```sql\nSELECT 1\n```" == SqlFence + "\n" + "SELECT 1" + "\n" + Fence;
    FencedReply("\n", "SELECT 1", "\n");
  }
}
