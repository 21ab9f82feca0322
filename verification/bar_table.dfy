/** The bar table with its primary key; a row that is already there wins. */
module BarTable {
  import opened Bars

  datatype RowKey = RowKey(pair: Pair, tf: Timeframe, openedAt: int)
  type Table = map<RowKey, Bar>

  function RowKeyOf(b: Bar): RowKey { RowKey(b.pair, b.tf, b.openedAt) }

  function InsertRow(t: Table, b: Bar): Table {
    if RowKeyOf(b) in t then t else t[RowKeyOf(b) := b]
  }

  function InsertAll(t: Table, bars: seq<Bar>): Table {
    if bars == [] then t else InsertRow(InsertAll(t, bars[..|bars| - 1]), bars[|bars| - 1])
  }

  lemma {:induction false} InsertAllConcat(t: Table, a: seq<Bar>, b: seq<Bar>)
    ensures InsertAll(t, a + b) == InsertAll(InsertAll(t, a), b)
    decreases |b|
  {
    if b == [] {
      assert a + b == a;
    } else {
      assert (a + b)[..|a + b| - 1] == a + b[..|b| - 1];
      InsertAllConcat(t, a, b[..|b| - 1]);
    }
  }

  /** Equal primary keys mean equal bars. */
  ghost predicate Functional(bars: seq<Bar>) {
    forall i, j :: 0 <= i < |bars| && 0 <= j < |bars| && RowKeyOf(bars[i]) == RowKeyOf(bars[j]) ==> bars[i] == bars[j]
  }

  /** The table holds a bar of `bars` under its own key, for every key of `bars` and no other. */
  lemma {:induction false} InsertAllRows(bars: seq<Bar>)
    ensures var t := InsertAll(map[], bars);
            && (forall i :: 0 <= i < |bars| ==> RowKeyOf(bars[i]) in t)
            && (forall k :: k in t ==> t[k] in bars && RowKeyOf(t[k]) == k)
    decreases |bars|
  {
    if bars != [] { InsertAllRows(bars[..|bars| - 1]); }
  }

  /** Of several bars with one key the first is kept. */
  lemma {:induction false} FirstRowWins(bars: seq<Bar>, i: nat)
    requires i < |bars| && forall j :: 0 <= j < i ==> RowKeyOf(bars[j]) != RowKeyOf(bars[i])
    ensures RowKeyOf(bars[i]) in InsertAll(map[], bars) && InsertAll(map[], bars)[RowKeyOf(bars[i])] == bars[i]
    decreases |bars|
  {
    var n := |bars| - 1;
    if i < n {
      FirstRowWins(bars[..n], i);
    } else {
      InsertAllRows(bars[..n]);
      assert forall b :: b in bars[..n] ==> RowKeyOf(b) != RowKeyOf(bars[n]);
    }
  }

  /** Order, batching and repetition of inserts do not show when equal keys mean equal bars. */
  lemma SameRows(a: seq<Bar>, b: seq<Bar>)
    requires Functional(a)
    requires forall x :: x in a <==> x in b
    ensures InsertAll(map[], a) == InsertAll(map[], b)
  {
    var s, t := InsertAll(map[], a), InsertAll(map[], b);
    InsertAllRows(a);
    InsertAllRows(b);
    forall k | k in s ensures k in t && t[k] == s[k] {
      assert s[k] in b;
      assert t[k] in a;
    }
    forall k | k in t ensures k in s {
      assert t[k] in a;
    }
  }

  class PgxInserter {
    var table: Table

    /** One statement per bar; a key that is already stored is left as it is. */
    method Insert(bars: seq<Bar>)
      modifies this
      ensures table == InsertAll(old(table), bars)
    {
      if |bars| == 0 {
        return;
      }
      var i := 0;
      while i < |bars|
        invariant 0 <= i <= |bars|
        invariant table == InsertAll(old(table), bars[..i])
      {
        assert bars[..i + 1][..i] == bars[..i];
        if RowKeyOf(bars[i]) !in table {
          table := table[RowKeyOf(bars[i]) := bars[i]];
        }
        i := i + 1;
      }
      assert bars[..|bars|] == bars;
    }
  }
}
