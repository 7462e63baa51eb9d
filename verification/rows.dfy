/**
 Result rows as the backend assembles them: `dict(zip(columns, row))`.
 A Python dict is modelled as a list of key/value pairs in insertion
 order; building one from pairs keeps the position of a key's first
 occurrence and the value of its last.
 */
module Rows {
  import opened Wrappers

  type Dict<V> = seq<(string, V)>

  function Keys<V>(d: Dict<V>): seq<string>
  {
    seq(|d|, i requires 0 <= i < |d| => d[i].0)
  }

  predicate Distinct(ks: seq<string>)
  {
    forall i, j :: 0 <= i < j < |ks| ==> ks[i] != ks[j]
  }

  /** `zip(xs, ys)`: pairs up to the shorter length. */
  function Zip<A, B>(xs: seq<A>, ys: seq<B>): (z: seq<(A, B)>)
    ensures |z| == if |xs| <= |ys| then |xs| else |ys|
    ensures forall i :: 0 <= i < |z| ==> z[i] == (xs[i], ys[i])
  {
    if |xs| == 0 || |ys| == 0 then [] else [(xs[0], ys[0])] + Zip(xs[1..], ys[1..])
  }

  /** `d[k]`, or nothing when `k` is not a key. */
  function Lookup<V>(d: Dict<V>, k: string): (r: Option<V>)
    ensures r.None? <==> k !in Keys(d)
  {
    if |d| == 0 then None
    else if d[0].0 == k then
      assert Keys(d)[0] == k;
      Some(d[0].1)
    else
      assert Keys(d) == [d[0].0] + Keys(d[1..]);
      Lookup(d[1..], k)
  }

  /** `d[k] = v`: an existing key keeps its place, a new one goes last. */
  function Insert<V>(d: Dict<V>, k: string, v: V): Dict<V>
  {
    if |d| == 0 then [(k, v)]
    else if d[0].0 == k then [(k, v)] + d[1..]
    else [d[0]] + Insert(d[1..], k, v)
  }

  /** `dict(pairs)`: the pairs inserted from first to last. */
  function DictOf<V>(pairs: seq<(string, V)>): Dict<V>
  {
    if |pairs| == 0 then []
    else
      var last := pairs[|pairs| - 1];
      Insert(DictOf(pairs[..|pairs| - 1]), last.0, last.1)
  }

  /** The value paired with `k` last in `pairs`: an independent statement of
      which value a dict built from `pairs` holds. */
  function LastValue<V>(pairs: seq<(string, V)>, k: string): (r: Option<V>)
    ensures r.None? <==> forall i :: 0 <= i < |pairs| ==> pairs[i].0 != k
    ensures r.Some? ==>
      exists j :: 0 <= j < |pairs| && pairs[j] == (k, r.value) &&
        forall i :: j < i < |pairs| ==> pairs[i].0 != k
  {
    if |pairs| == 0 then None
    else if pairs[|pairs| - 1].0 == k then Some(pairs[|pairs| - 1].1)
    else
      var r := LastValue(pairs[..|pairs| - 1], k);
      LastBefore(pairs, k, r);
      r
  }

  ghost predicate IsLastValue<V>(pairs: seq<(string, V)>, k: string, r: Option<V>)
  {
    && (r.None? <==> forall i :: 0 <= i < |pairs| ==> pairs[i].0 != k)
    && (r.Some? ==>
      exists j :: 0 <= j < |pairs| && pairs[j] == (k, r.value) &&
        forall i :: j < i < |pairs| ==> pairs[i].0 != k)
  }

  /** A last entry with another key changes nothing. */
  lemma LastBefore<V>(pairs: seq<(string, V)>, k: string, r: Option<V>)
    requires |pairs| > 0 && pairs[|pairs| - 1].0 != k
    requires IsLastValue(pairs[..|pairs| - 1], k, r)
    ensures IsLastValue(pairs, k, r)
  {
    var n := |pairs| - 1;
    var init := pairs[..n];
    assert forall i :: 0 <= i < n ==> init[i] == pairs[i];
    if r.Some? {
      var j :| 0 <= j < n && init[j] == (k, r.value) && forall i :: j < i < n ==> init[i].0 != k;
      assert pairs[j] == (k, r.value);
    }
  }

  // ---------------------------------------------------------------------------
  // Insert

  lemma {:induction false} InsertLookup<V>(d: Dict<V>, k: string, v: V, j: string)
    ensures Lookup(Insert(d, k, v), j) == if j == k then Some(v) else Lookup(d, j)
    decreases |d|
  {
    if |d| > 0 && d[0].0 != k {
      InsertLookup(d[1..], k, v, j);
    }
  }

  lemma {:induction false} InsertKeys<V>(d: Dict<V>, k: string, v: V)
    ensures Keys(Insert(d, k, v)) == if k in Keys(d) then Keys(d) else Keys(d) + [k]
    decreases |d|
  {
    if |d| > 0 {
      var e := Insert(d, k, v);
      KeysCons(d);
      KeysCons(e);
      if d[0].0 != k {
        assert e[1..] == Insert(d[1..], k, v);
        InsertKeys(d[1..], k, v);
        assert [d[0].0] + (Keys(d[1..]) + [k]) == Keys(d) + [k];
      } else {
        assert e[1..] == d[1..];
      }
    }
  }

  lemma KeysCons<V>(d: Dict<V>)
    requires |d| > 0
    ensures Keys(d) == [d[0].0] + Keys(d[1..])
  {
  }

  lemma InsertDistinct<V>(d: Dict<V>, k: string, v: V)
    requires Distinct(Keys(d))
    ensures Distinct(Keys(Insert(d, k, v)))
  {
    InsertKeys(d, k, v);
  }

  lemma InsertAbsent<V>(d: Dict<V>, k: string, v: V)
    requires k !in Keys(d)
    ensures Insert(d, k, v) == d + [(k, v)]
    decreases |d|
  {
    if |d| > 0 {
      assert Keys(d) == [d[0].0] + Keys(d[1..]);
      InsertAbsent(d[1..], k, v);
      assert d == [d[0]] + d[1..];
    }
  }

  // ---------------------------------------------------------------------------
  // dict(pairs)

  /** No key appears twice in a dict. */
  lemma {:induction false} DictDistinct<V>(pairs: seq<(string, V)>)
    ensures Distinct(Keys(DictOf(pairs)))
    decreases |pairs|
  {
    if |pairs| > 0 {
      var last := pairs[|pairs| - 1];
      DictDistinct(pairs[..|pairs| - 1]);
      InsertDistinct(DictOf(pairs[..|pairs| - 1]), last.0, last.1);
    }
  }

  /** Looking a key up in `dict(pairs)` finds the value paired with it last. */
  lemma {:induction false} DictLookup<V>(pairs: seq<(string, V)>, k: string)
    ensures Lookup(DictOf(pairs), k) == LastValue(pairs, k)
    decreases |pairs|
  {
    if |pairs| > 0 {
      var last := pairs[|pairs| - 1];
      DictLookup(pairs[..|pairs| - 1], k);
      InsertLookup(DictOf(pairs[..|pairs| - 1]), last.0, last.1, k);
    }
  }

  /** With distinct keys, `dict(pairs)` holds exactly the pairs, in order. */
  lemma {:induction false} DictOfDistinct<V>(pairs: seq<(string, V)>)
    requires Distinct(Keys(pairs))
    ensures DictOf(pairs) == pairs
    decreases |pairs|
  {
    if |pairs| > 0 {
      var n := |pairs| - 1;
      var init := pairs[..n];
      assert Keys(init) == Keys(pairs)[..n];
      DictOfDistinct(init);
      assert pairs[n].0 == Keys(pairs)[n];
      assert pairs[n].0 !in Keys(init);
      InsertAbsent(init, pairs[n].0, pairs[n].1);
      assert init + [pairs[n]] == pairs;
    }
  }

  // ---------------------------------------------------------------------------
  // dict(zip(columns, row))

  /** A result row as the backend builds it. */
  function RowDict<V>(columns: seq<string>, row: seq<V>): Dict<V>
  {
    DictOf(Zip(columns, row))
  }

  /** With distinct column names and a full row, the `i`-th entry maps the
      `i`-th column to the `i`-th value. */
  lemma RowDictExact<V>(columns: seq<string>, row: seq<V>)
    requires Distinct(columns) && |row| == |columns|
    ensures RowDict(columns, row) == Zip(columns, row)
    ensures forall i :: 0 <= i < |columns| ==> RowDict(columns, row)[i] == (columns[i], row[i])
  {
    assert Keys(Zip(columns, row)) == columns;
    DictOfDistinct(Zip(columns, row));
  }

  /** Each column name holds the value of the last column with that name;
      names beyond the row's length are missing. */
  lemma RowDictLookup<V>(columns: seq<string>, row: seq<V>, c: string)
    ensures Lookup(RowDict(columns, row), c).None? <==>
      forall i :: 0 <= i < |columns| && i < |row| ==> columns[i] != c
    ensures forall j :: (0 <= j < |columns| && j < |row| && columns[j] == c &&
        forall i :: j < i < |columns| && i < |row| ==> columns[i] != c) ==>
      Lookup(RowDict(columns, row), c) == Some(row[j])
  {
    var z := Zip(columns, row);
    DictLookup(z, c);
    forall j | 0 <= j < |columns| && j < |row| && columns[j] == c &&
        (forall i :: j < i < |columns| && i < |row| ==> columns[i] != c)
      ensures LastValue(z, c) == Some(row[j])
    {
      var r := LastValue(z, c);
      assert z[j].0 == c;
      var j' :| 0 <= j' < |z| && z[j'] == (c, r.value) && forall i :: j' < i < |z| ==> z[i].0 != c;
      assert j' == j;
    }
  }
}
