/**
 * The time-indexed tables that every stage of the turbine pipeline reads and
 * writes: a sequence of (timestamp, row) pairs, where a row maps column names
 * to cells. A timestamp is a whole number of minutes, so the 10-minute grid,
 * the 2-hour window and the lag offsets are all integer arithmetic; a
 * measurement is a `real`, so means and differences are exact.
 */
module Tables {

  /** A timestamp, in minutes. */
  type Time = int

  type Column = string

  /** The sampling pitch of the SCADA data, in minutes. */
  const GridStep: int := 10

  /** The time `j` grid steps (10·j minutes) before `t`. */
  function Before(t: Time, j: int): Time { t - GridStep * j }

  datatype Option<T> = None | Some(value: T)

  /** Errors that the pandas operations of the pipeline raise. */
  datatype PipelineError =
    | KeyError(missing: set<Column>)     // a column that was asked for is absent
    | NameError                          // a loop variable read before any iteration bound it
    | LengthMismatch(expected: nat, got: nat)  // a column-name list of the wrong length

  datatype Result<T> = Ok(value: T) | Err(error: PipelineError)

  datatype Entry<V> = Entry(time: Time, row: map<Column, V>)

  /** A data frame: its column labels and its rows in index order. */
  datatype Table<V> = Table(columns: set<Column>, entries: seq<Entry<V>>)

  /** Every row has a cell for exactly the frame's columns. */
  predicate Uniform<V>(t: Table<V>)
  {
    forall k :: 0 <= k < |t.entries| ==> t.entries[k].row.Keys == t.columns
  }

  /** `pd.DataFrame(index=...)`: the index of `es` and no column. */
  function IndexFrame<U, V>(es: seq<Entry<U>>): (r: Table<V>)
    ensures Uniform(r) && r.columns == {} && |r.entries| == |es|
    ensures forall k :: 0 <= k < |es| ==> r.entries[k].time == es[k].time
  {
    Table({}, seq(|es|, k requires 0 <= k < |es| => Entry(es[k].time, map[])))
  }

  /** Every row has a cell for each of `cols` (and maybe more). */
  predicate RowsCover<V>(es: seq<Entry<V>>, cols: set<Column>)
  {
    forall k :: 0 <= k < |es| ==> cols <= es[k].row.Keys
  }

  function TimeSet<V>(es: seq<Entry<V>>): set<Time>
  {
    set k | 0 <= k < |es| :: es[k].time
  }

  lemma TimeSetCons<V>(es: seq<Entry<V>>)
    requires |es| > 0
    ensures TimeSet(es) == {es[0].time} + TimeSet(es[1..])
  {
    forall x | x in TimeSet(es) ensures x in {es[0].time} + TimeSet(es[1..]) {
      var k :| 0 <= k < |es| && es[k].time == x;
      if k > 0 { assert es[1..][k - 1].time == x; }
    }
    forall x | x in TimeSet(es[1..]) ensures x in TimeSet(es) {
      var k :| 0 <= k < |es[1..]| && es[1..][k].time == x;
      assert es[k + 1].time == x;
    }
  }

  predicate Sorted<V>(es: seq<Entry<V>>)
  {
    forall i, j :: 0 <= i < j < |es| ==> es[i].time <= es[j].time
  }

  /** Sorted and free of repeated timestamps. */
  predicate StrictlyIncreasing<V>(es: seq<Entry<V>>)
  {
    forall i, j :: 0 <= i < j < |es| ==> es[i].time < es[j].time
  }

  /** Sum of column `c` over the rows `es`. */
  function SumColumn(es: seq<Entry<real>>, c: Column): real
    requires forall k :: 0 <= k < |es| ==> c in es[k].row
  {
    if es == [] then 0.0 else es[0].row[c] + SumColumn(es[1..], c)
  }

  lemma {:induction false} SumColumnAppend(a: seq<Entry<real>>, b: seq<Entry<real>>, c: Column)
    requires forall k :: 0 <= k < |a| ==> c in a[k].row
    requires forall k :: 0 <= k < |b| ==> c in b[k].row
    ensures SumColumn(a + b, c) == SumColumn(a, c) + SumColumn(b, c)
    decreases |a|
  {
    if a == [] {
      assert a + b == b;
    } else {
      assert (a + b)[1..] == a[1..] + b;
      SumColumnAppend(a[1..], b, c);
    }
  }

  /** Taking row `i` out of `b` takes `b[i]`'s contribution out of the column sum. */
  lemma SumColumnWithout(b: seq<Entry<real>>, i: nat, c: Column)
    requires i < |b| && forall k :: 0 <= k < |b| ==> c in b[k].row
    ensures SumColumn(b, c) == b[i].row[c] + SumColumn(b[..i] + b[i + 1..], c)
  {
    var before, after := b[..i], b[i + 1..];
    assert b == before + ([b[i]] + after);
    SumColumnAppend(before, [b[i]] + after, c);
    assert ([b[i]] + after)[1..] == after;
    SumColumnAppend(before, after, c);
  }

  lemma MultisetWithout<T>(b: seq<T>, i: nat)
    requires i < |b|
    ensures multiset(b[..i] + b[i + 1..]) == multiset(b) - multiset{b[i]}
  {
    assert b == b[..i] + [b[i]] + b[i + 1..];
  }

  /** Removing the same element from two permutations of each other leaves permutations. */
  lemma MultisetRemoveSame<T>(a: seq<T>, b: seq<T>, i: nat)
    requires multiset(a) == multiset(b) && |a| > 0 && i < |b| && b[i] == a[0]
    ensures multiset(b[..i] + b[i + 1..]) == multiset(a[1..])
  {
    MultisetWithout(b, i);
    assert a == [a[0]] + a[1..];
    assert multiset(a) == multiset{a[0]} + multiset(a[1..]);
  }

  /** A column's sum does not depend on the order of the rows. */
  lemma {:induction false} SumColumnPermutation(a: seq<Entry<real>>, b: seq<Entry<real>>, c: Column)
    requires multiset(a) == multiset(b)
    requires forall k :: 0 <= k < |a| ==> c in a[k].row
    requires forall k :: 0 <= k < |b| ==> c in b[k].row
    ensures SumColumn(a, c) == SumColumn(b, c)
    decreases |a|
  {
    if a == [] {
      assert |b| == |multiset(b)| == 0;
      assert b == [];
    } else {
      assert a[0] in multiset(b) by { assert a[0] in multiset(a); }
      var i :| 0 <= i < |b| && b[i] == a[0];
      var rest := b[..i] + b[i + 1..];
      MultisetRemoveSame(a, b, i);
      assert forall k :: 0 <= k < |rest| ==> c in rest[k].row by {
        forall k | 0 <= k < |rest| ensures c in rest[k].row {
          if k < i { assert rest[k] == b[k]; } else { assert rest[k] == b[k + 1]; }
        }
      }
      calc {
        SumColumn(a, c);
        a[0].row[c] + SumColumn(a[1..], c);
        { SumColumnPermutation(a[1..], rest, c); }
        b[i].row[c] + SumColumn(rest, c);
        { SumColumnWithout(b, i, c); }
        SumColumn(b, c);
      }
    }
  }

  /** Column-wise arithmetic mean of a non-empty block of rows (DataFrame.mean over axis 0). */
  function MeanRow(es: seq<Entry<real>>, cols: set<Column>): (r: map<Column, real>)
    requires |es| > 0 && RowsCover(es, cols)
    ensures r.Keys == cols
  {
    map c | c in cols :: SumColumn(es, c) / (|es| as real)
  }

  /** The mean of a single row is that row (restricted to the columns averaged). */
  lemma MeanOfOneRow(e: Entry<real>, cols: set<Column>)
    requires e.row.Keys == cols
    ensures MeanRow([e], cols) == e.row
  {
    forall c | c in cols ensures MeanRow([e], cols)[c] == e.row[c] {
      assert [e][1..] == [];
      assert SumColumn([e], c) == e.row[c] + SumColumn([], c);
    }
  }

  /** The mean of a block of rows does not depend on their order. */
  lemma MeanRowPermutation(a: seq<Entry<real>>, b: seq<Entry<real>>, cols: set<Column>)
    requires multiset(a) == multiset(b) && |a| > 0 && RowsCover(a, cols)
    ensures |b| > 0 && RowsCover(b, cols)
    ensures MeanRow(a, cols) == MeanRow(b, cols)
  {
    assert |a| == |multiset(a)| == |multiset(b)| == |b|;
    forall k | 0 <= k < |b| ensures cols <= b[k].row.Keys {
      assert b[k] in multiset(a);
      var j :| 0 <= j < |a| && a[j] == b[k];
    }
    forall c | c in cols ensures SumColumn(a, c) == SumColumn(b, c) {
      SumColumnPermutation(a, b, c);
    }
  }

  /** Two orderings of the same rows stamp the same set of times. */
  lemma TimeSetPermutation<V>(a: seq<Entry<V>>, b: seq<Entry<V>>)
    requires multiset(a) == multiset(b)
    ensures TimeSet(a) == TimeSet(b)
  {
    forall x | x in TimeSet(a) ensures x in TimeSet(b) {
      var k :| 0 <= k < |a| && a[k].time == x;
      assert a[k] in multiset(b);
      var j :| 0 <= j < |b| && b[j] == a[k];
    }
    forall x | x in TimeSet(b) ensures x in TimeSet(a) {
      var k :| 0 <= k < |b| && b[k].time == x;
      assert b[k] in multiset(a);
      var j :| 0 <= j < |a| && a[j] == b[k];
    }
  }

  /** The row stored at `t`, if any (the first one, when `t` repeats). */
  function RowAt<V>(es: seq<Entry<V>>, t: Time): (r: Option<map<Column, V>>)
    ensures r.Some? <==> t in TimeSet(es)
    ensures r.Some? ==> exists k :: 0 <= k < |es| && es[k].time == t && es[k].row == r.value
  {
    if es == [] then None
    else if es[0].time == t then Some(es[0].row)
    else
      var r := RowAt(es[1..], t);
      TimeSetCons(es);
      if r.Some? then
        ghost var k :| 0 <= k < |es[1..]| && es[1..][k].time == t && es[1..][k].row == r.value;
        assert es[k + 1].time == t && es[k + 1].row == r.value;
        r
      else r
  }

  /** With unique timestamps, the row at `es[k].time` is `es[k]`'s. */
  lemma RowAtUnique<V>(es: seq<Entry<V>>, k: nat)
    requires StrictlyIncreasing(es) && k < |es|
    ensures RowAt(es, es[k].time) == Some(es[k].row)
  {
    var r := RowAt(es, es[k].time);
    assert es[k].time in TimeSet(es);
    var k' :| 0 <= k' < |es| && es[k'].time == es[k].time && es[k'].row == r.value;
    assert k' == k;
  }

  /** The row stored at a time the rows have carries every column the rows all cover. */
  lemma RowAtCovers<V>(es: seq<Entry<V>>, cols: set<Column>, t: Time)
    requires RowsCover(es, cols) && t in TimeSet(es)
    ensures cols <= RowAt(es, t).value.Keys
  {
    var k :| 0 <= k < |es| && es[k].time == t && es[k].row == RowAt(es, t).value;
  }

  /** In a uniform table, the row stored at any of its times has exactly the table's columns. */
  lemma RowAtKeys<V>(t: Table<V>, time: Time)
    requires Uniform(t) && time in TimeSet(t.entries)
    ensures RowAt(t.entries, time).value.Keys == t.columns
  {
    var k :| 0 <= k < |t.entries| && t.entries[k].time == time && t.entries[k].row == RowAt(t.entries, time).value;
  }
}
