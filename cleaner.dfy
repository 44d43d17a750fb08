/**
 * The Cleaner (`clean_data`): keep the samples on the 10-minute grid, sort
 * them by time, collapse every run of identical timestamps into one row that
 * holds the run's column-wise mean, and drop ten columns known to be faulty.
 */
module Cleaner {
  import opened Tables

  // ---------------------------------------------------------------------------
  // Grid filter
  // ---------------------------------------------------------------------------

  /** The minute-of-hour of a timestamp (pandas' `index.minute`). */
  function Minute(t: Time): (m: int)
    ensures 0 <= m < 60
  {
    t % 60
  }

  predicate OnGrid(t: Time)
  {
    Minute(t) % 10 == 0
  }

  /** Because an hour is six 10-minute slots, being on the grid is being a multiple of ten minutes. */
  lemma OnGridIsMultipleOfTen(t: Time)
    ensures OnGrid(t) <==> t % 10 == 0
  {
    var q := t / 60;
    assert t == 60 * q + Minute(t);
    assert t == 10 * (6 * q) + Minute(t);
    var m := Minute(t);
    assert m == 10 * (m / 10) + m % 10;
    assert t == 10 * (6 * q + m / 10) + m % 10;
  }

  /** The rows of `es` whose minute is a multiple of 10, every one of them, in order. */
  function FilterGrid(es: seq<Entry<real>>): (r: seq<Entry<real>>)
    ensures forall k :: 0 <= k < |r| ==> OnGrid(r[k].time)
    ensures forall x :: multiset(r)[x] == if OnGrid(x.time) then multiset(es)[x] else 0
  {
    if es == [] then []
    else
      assert es == [es[0]] + es[1..];
      (if OnGrid(es[0].time) then [es[0]] else []) + FilterGrid(es[1..])
  }

  // ---------------------------------------------------------------------------
  // sort_index
  // ---------------------------------------------------------------------------

  /** Putting in front of sorted rows a row no later than any of them keeps them sorted. */
  lemma SortedCons(x: Entry<real>, s: seq<Entry<real>>)
    requires Sorted(s) && forall j :: 0 <= j < |s| ==> x.time <= s[j].time
    ensures Sorted([x] + s)
  {
    var r := [x] + s;
    forall i, j | 0 <= i < j < |r| ensures r[i].time <= r[j].time {
      assert r[j] == s[j - 1];
      if i > 0 { assert r[i] == s[i - 1]; }
    }
  }

  /** Every row of a multiset-equal sequence comes from `s` or is `e`. */
  lemma LowerBoundKept(x: Entry<real>, e: Entry<real>, s: seq<Entry<real>>, r: seq<Entry<real>>)
    requires multiset(r) == multiset(s) + multiset{e}
    requires x.time < e.time && forall j :: 0 <= j < |s| ==> x.time <= s[j].time
    ensures forall j :: 0 <= j < |r| ==> x.time <= r[j].time
  {
    forall j | 0 <= j < |r| ensures x.time <= r[j].time {
      assert r[j] in multiset(r);
      if r[j] != e {
        assert r[j] in multiset(s);
      }
    }
  }

  function Insert(e: Entry<real>, s: seq<Entry<real>>): (r: seq<Entry<real>>)
    requires Sorted(s)
    ensures Sorted(r)
    ensures multiset(r) == multiset(s) + multiset{e}
  {
    if s == [] then [e]
    else if e.time <= s[0].time then
      SortedCons(e, s);
      [e] + s
    else
      var rest := Insert(e, s[1..]);
      assert s == [s[0]] + s[1..];
      LowerBoundKept(s[0], e, s[1..], rest);
      SortedCons(s[0], rest);
      [s[0]] + rest
  }

  /** The rows ordered by timestamp (a permutation of the input). */
  function SortByTime(es: seq<Entry<real>>): (r: seq<Entry<real>>)
    ensures Sorted(r)
    ensures multiset(r) == multiset(es)
  {
    if es == [] then []
    else
      assert es == [es[0]] + es[1..];
      Insert(es[0], SortByTime(es[1..]))
  }

  // ---------------------------------------------------------------------------
  // Runs of identical timestamps
  // ---------------------------------------------------------------------------

  /** The end (exclusive) of the run of equal timestamps that begins at `k`. */
  function RunEnd<V>(es: seq<Entry<V>>, k: nat): (e: nat)
    requires k < |es|
    ensures k < e <= |es|
    ensures forall j :: k <= j < e ==> es[j].time == es[k].time
    ensures e == |es| || es[e].time != es[k].time
    decreases |es| - k
  {
    if k + 1 < |es| && es[k + 1].time == es[k].time then RunEnd(es, k + 1) else k + 1
  }

  /** A maximal block of equal timestamps starting at `k` ends where `RunEnd` says. */
  lemma RunEndIs<V>(es: seq<Entry<V>>, k: nat, e: nat)
    requires k < e <= |es|
    requires forall j :: k <= j < e ==> es[j].time == es[k].time
    requires e == |es| || es[e].time != es[k].time
    ensures RunEnd(es, k) == e
  {
  }

  predicate IsRunStart<V>(es: seq<Entry<V>>, k: nat)
    requires k < |es|
  {
    k == 0 || es[k - 1].time != es[k].time
  }

  /**
   * What position `k` holds once the averaging loop is done: the first row of
   * a run of two or more equal timestamps is overwritten with the run's mean;
   * every other row is left as it was.
   */
  function AverageAt(es: seq<Entry<real>>, k: nat, cols: set<Column>): (e: Entry<real>)
    requires k < |es| && RowsCover(es, cols)
    ensures e.time == es[k].time
  {
    if IsRunStart(es, k) && RunEnd(es, k) - k > 1 then Entry(es[k].time, MeanRow(es[k..RunEnd(es, k)], cols))
    else es[k]
  }

  function Averaged(es: seq<Entry<real>>, cols: set<Column>): (r: seq<Entry<real>>)
    requires RowsCover(es, cols)
    ensures |r| == |es| && forall k :: 0 <= k < |es| ==> r[k] == AverageAt(es, k, cols)
  {
    seq(|es|, k requires 0 <= k < |es| => AverageAt(es, k, cols))
  }

  /** Once a run `[start, i)` is complete, the averaged rows it should hold. */
  lemma RunAveraged(es: seq<Entry<real>>, start: nat, i: nat, cols: set<Column>)
    requires start < i <= |es| && RowsCover(es, cols) && IsRunStart(es, start)
    requires forall j :: start <= j < i ==> es[j].time == es[start].time
    requires i == |es| || es[i].time != es[start].time
    ensures AverageAt(es, start, cols) ==
              if i - start > 1 then Entry(es[start].time, MeanRow(es[start..i], cols)) else es[start]
    ensures forall k :: start < k < i ==> AverageAt(es, k, cols) == es[k]
  {
    RunEndIs(es, start, i);
  }

  /**
   * The `start_of_dupes` loop of `clean_data`: it walks the rows, and each time
   * a run of equal timestamps ends it writes the run's mean over the run's
   * first row (only when the run has more than one row).
   */
  method AverageDuplicates(es: seq<Entry<real>>, cols: set<Column>) returns (rows: seq<Entry<real>>)
    requires RowsCover(es, cols)
    ensures rows == Averaged(es, cols)
  {
    rows := es;
    var start := 0;
    for i := 1 to |es| + 1
      invariant start < i
      invariant i <= |es| ==> start < |es| && IsRunStart(es, start)
      invariant i <= |es| ==> forall j :: start <= j < i ==> es[j].time == es[start].time
      invariant i == |es| + 1 ==> start == |es|
      invariant |rows| == |es|
      invariant forall k :: 0 <= k < start ==> rows[k] == AverageAt(es, k, cols)
      invariant forall k :: start <= k < |es| ==> rows[k] == es[k]
    {
      if i == |es| || rows[i].time != rows[i - 1].time {
        rows := CloseRun(es, cols, rows, start, i);
        start := i;
      }
    }
    assert forall k :: 0 <= k < |es| ==> rows[k] == Averaged(es, cols)[k];
  }

  /**
   * One step of the `start_of_dupes` loop: the run `[start, i)` has ended, and
   * its first row is overwritten with the run's mean when it has two or more rows.
   */
  method CloseRun(es: seq<Entry<real>>, cols: set<Column>, rows: seq<Entry<real>>, start: nat, i: nat)
    returns (next: seq<Entry<real>>)
    requires RowsCover(es, cols) && start < i <= |es| && IsRunStart(es, start)
    requires forall j :: start <= j < i ==> es[j].time == es[start].time
    requires i == |es| || es[i].time != es[start].time
    requires |rows| == |es|
    requires forall k :: 0 <= k < start ==> rows[k] == AverageAt(es, k, cols)
    requires forall k :: start <= k < |es| ==> rows[k] == es[k]
    ensures |next| == |es|
    ensures forall k :: 0 <= k < i ==> next[k] == AverageAt(es, k, cols)
    ensures forall k :: i <= k < |es| ==> next[k] == es[k]
  {
    RunAveraged(es, start, i, cols);
    next := rows;
    if i - start > 1 {
      assert rows[start..i] == es[start..i];
      var average := MeanRow(rows[start..i], cols);
      next := rows[start := Entry(rows[start].time, average)];
    }
  }

  // ---------------------------------------------------------------------------
  // drop_duplicates(keep="first") on the index
  // ---------------------------------------------------------------------------

  /** The rows whose timestamp has not been seen before (`seen` or earlier in `es`). */
  function KeepFirst<V>(es: seq<Entry<V>>, seen: set<Time>): (r: seq<Entry<V>>)
    ensures forall x :: x in r ==> x in es && x.time !in seen
    ensures TimeSet(r) == TimeSet(es) - seen
    ensures forall i, j :: 0 <= i < j < |r| ==> r[i].time != r[j].time
    decreases |es|
  {
    if es == [] then []
    else
      TimeSetCons(es);
      if es[0].time in seen then KeepFirst(es[1..], seen)
      else
        var rest := KeepFirst(es[1..], seen + {es[0].time});
        TimeSetCons([es[0]] + rest);
        assert ([es[0]] + rest)[1..] == rest;
        [es[0]] + rest
  }

  /** Each row that `KeepFirst` keeps is the first row of `es` with its timestamp. */
  lemma {:induction false} KeepFirstIsFirst<V>(es: seq<Entry<V>>, seen: set<Time>, j: nat) returns (k: nat)
    requires j < |KeepFirst(es, seen)|
    ensures k < |es| && KeepFirst(es, seen)[j] == es[k]
    ensures forall i :: 0 <= i < k ==> es[i].time != es[k].time
    decreases |es|, 1
  {
    if es[0].time in seen {
      k := KeepFirstSkipped(es, seen, j);
    } else if j == 0 {
      k := 0;
    } else {
      k := KeepFirstKept(es, seen, j);
    }
  }

  /** `KeepFirstIsFirst` when the first row's timestamp was already seen. */
  lemma {:induction false} KeepFirstSkipped<V>(es: seq<Entry<V>>, seen: set<Time>, j: nat) returns (k: nat)
    requires es != [] && es[0].time in seen && j < |KeepFirst(es, seen)|
    ensures k < |es| && KeepFirst(es, seen)[j] == es[k]
    ensures forall i :: 0 <= i < k ==> es[i].time != es[k].time
    decreases |es|, 0
  {
    var r := KeepFirst(es, seen);
    var k' := KeepFirstIsFirst(es[1..], seen, j);
    k := k' + 1;
    assert r[j] in r;
  }

  /** `KeepFirstIsFirst` past the first row, when that row was kept. */
  lemma {:induction false} KeepFirstKept<V>(es: seq<Entry<V>>, seen: set<Time>, j: nat) returns (k: nat)
    requires es != [] && es[0].time !in seen && 0 < j < |KeepFirst(es, seen)|
    ensures k < |es| && KeepFirst(es, seen)[j] == es[k]
    ensures forall i :: 0 <= i < k ==> es[i].time != es[k].time
    decreases |es|, 0
  {
    var k' := KeepFirstIsFirst(es[1..], seen + {es[0].time}, j - 1);
    k := k' + 1;
    assert es[1..][k'] in KeepFirst(es[1..], seen + {es[0].time});
  }

  /** On sorted rows, keeping the first of each timestamp leaves them strictly increasing. */
  lemma {:induction false} KeepFirstStrictlyIncreasing<V>(es: seq<Entry<V>>, seen: set<Time>)
    requires Sorted(es)
    ensures StrictlyIncreasing(KeepFirst(es, seen))
    decreases |es|
  {
    if es != [] {
      if es[0].time in seen {
        KeepFirstStrictlyIncreasing(es[1..], seen);
      } else {
        var rest := KeepFirst(es[1..], seen + {es[0].time});
        KeepFirstStrictlyIncreasing(es[1..], seen + {es[0].time});
        forall j | 0 <= j < |rest| ensures es[0].time < rest[j].time {
          assert rest[j] in rest;
          var i :| 0 <= i < |es[1..]| && es[1..][i] == rest[j];
          assert es[i + 1] == rest[j];
        }
      }
    }
  }

  // ---------------------------------------------------------------------------
  // The reference definition of a collapsed timestamp
  // ---------------------------------------------------------------------------

  /** The rows of `es` stamped `t`, in order. */
  function Occurrences(es: seq<Entry<real>>, t: Time): (r: seq<Entry<real>>)
    ensures forall k :: 0 <= k < |r| ==> r[k].time == t
    ensures |r| <= |es|
  {
    if es == [] then []
    else (if es[0].time == t then [es[0]] else []) + Occurrences(es[1..], t)
  }

  /** The rows stamped `t` are, with their multiplicities, those of `es`. */
  lemma {:induction false} OccurrencesMultiset(es: seq<Entry<real>>, t: Time)
    ensures forall x :: multiset(Occurrences(es, t))[x] == if x.time == t then multiset(es)[x] else 0
    decreases |es|
  {
    if es != [] {
      assert es == [es[0]] + es[1..];
      OccurrencesMultiset(es[1..], t);
    }
  }

  lemma OccurrencesPresent(es: seq<Entry<real>>, t: Time)
    ensures |Occurrences(es, t)| > 0 <==> t in TimeSet(es)
    ensures forall x :: x in Occurrences(es, t) ==> x in es
  {
    var r := Occurrences(es, t);
    OccurrencesMultiset(es, t);
    forall x | x in r ensures x in es {
      assert multiset(r)[x] > 0;
    }
    if t in TimeSet(es) {
      var k :| 0 <= k < |es| && es[k].time == t;
      assert multiset(es)[es[k]] > 0;
      assert multiset(r)[es[k]] > 0;
    }
    if |r| > 0 {
      assert r[0] in r;
      var k :| 0 <= k < |es| && es[k] == r[0];
    }
  }

  /**
   * The row the cleaned table should hold at timestamp `t`: the column-wise
   * mean of all input rows stamped `t` when there are several, that one row
   * unchanged when there is one.
   */
  function Collapse(es: seq<Entry<real>>, t: Time, cols: set<Column>): (e: Entry<real>)
    requires t in TimeSet(es) && RowsCover(es, cols)
    ensures e.time == t
  {
    OccurrencesPresent(es, t);
    var occ := Occurrences(es, t);
    assert RowsCover(occ, cols) by {
      forall k | 0 <= k < |occ| ensures cols <= occ[k].row.Keys {
        assert occ[k] in occ;
        var i :| 0 <= i < |es| && es[i] == occ[k];
      }
    }
    if |occ| > 1 then Entry(t, MeanRow(occ, cols)) else occ[0]
  }

  lemma {:induction false} OccurrencesAppend(a: seq<Entry<real>>, b: seq<Entry<real>>, t: Time)
    ensures Occurrences(a + b, t) == Occurrences(a, t) + Occurrences(b, t)
    decreases |a|
  {
    if a == [] {
      assert a + b == b;
    } else {
      var head := if a[0].time == t then [a[0]] else [];
      assert (a + b)[0] == a[0];
      assert (a + b)[1..] == a[1..] + b;
      OccurrencesAppend(a[1..], b, t);
      calc {
        Occurrences(a + b, t);
        head + Occurrences(a[1..] + b, t);
        head + (Occurrences(a[1..], t) + Occurrences(b, t));
        (head + Occurrences(a[1..], t)) + Occurrences(b, t);
      }
    }
  }

  lemma {:induction false} OccurrencesOfUniform(es: seq<Entry<real>>, lo: nat, hi: nat, t: Time)
    requires lo <= hi <= |es|
    requires forall k :: lo <= k < hi ==> es[k].time == t
    ensures Occurrences(es[lo..hi], t) == es[lo..hi]
    decreases hi - lo
  {
    if lo < hi {
      assert es[lo..hi][1..] == es[lo + 1..hi];
      OccurrencesOfUniform(es, lo + 1, hi, t);
    }
  }

  lemma {:induction false} OccurrencesOfNone(es: seq<Entry<real>>, lo: nat, hi: nat, t: Time)
    requires lo <= hi <= |es|
    requires forall k :: lo <= k < hi ==> es[k].time != t
    ensures Occurrences(es[lo..hi], t) == []
    decreases hi - lo
  {
    if lo < hi {
      assert es[lo..hi][1..] == es[lo + 1..hi];
      OccurrencesOfNone(es, lo + 1, hi, t);
    }
  }

  lemma OccurrencesSplit(es: seq<Entry<real>>, k: nat, e: nat, t: Time)
    requires k <= e <= |es|
    ensures Occurrences(es, t) ==
              Occurrences(es[0..k], t) + Occurrences(es[k..e], t) + Occurrences(es[e..|es|], t)
  {
    assert es == es[0..k] + es[k..e] + es[e..|es|];
    OccurrencesAppend(es[0..k] + es[k..e], es[e..|es|], t);
    OccurrencesAppend(es[0..k], es[k..e], t);
  }

  /** In sorted rows, no row before a run's start or after its end shares its timestamp. */
  lemma OutsideRun<V>(es: seq<Entry<V>>, k: nat)
    requires Sorted(es) && k < |es| && IsRunStart(es, k)
    ensures forall j :: 0 <= j < k ==> es[j].time != es[k].time
    ensures forall j :: RunEnd(es, k) <= j < |es| ==> es[j].time != es[k].time
  {
    var e := RunEnd(es, k);
    forall j | 0 <= j < k ensures es[j].time != es[k].time {
      assert es[j].time <= es[k - 1].time <= es[k].time;
    }
    forall j | e <= j < |es| ensures es[j].time != es[k].time {
      assert es[e].time <= es[j].time;
    }
  }

  /** In sorted rows, all the rows stamped like a run's first row are that run. */
  lemma OccurrencesOfRun(es: seq<Entry<real>>, k: nat)
    requires Sorted(es) && k < |es| && IsRunStart(es, k)
    ensures Occurrences(es, es[k].time) == es[k..RunEnd(es, k)]
  {
    var t, e := es[k].time, RunEnd(es, k);
    OutsideRun(es, k);
    OccurrencesSplit(es, k, e, t);
    OccurrencesOfNone(es, 0, k, t);
    OccurrencesOfUniform(es, k, e, t);
    OccurrencesOfNone(es, e, |es|, t);
  }

  // ---------------------------------------------------------------------------
  // Deduplication: the averaging loop followed by drop_duplicates
  // ---------------------------------------------------------------------------

  function Deduplicate(es: seq<Entry<real>>, cols: set<Column>): seq<Entry<real>>
    requires RowsCover(es, cols)
  {
    KeepFirst(Averaged(es, cols), {})
  }

  lemma AveragedTimes(es: seq<Entry<real>>, cols: set<Column>)
    requires RowsCover(es, cols)
    ensures TimeSet(Averaged(es, cols)) == TimeSet(es)
    ensures Sorted(es) ==> Sorted(Averaged(es, cols))
  {
    var a := Averaged(es, cols);
    assert forall k :: 0 <= k < |es| ==> a[k].time == es[k].time;
  }

  /**
   * On sorted rows, deduplication leaves strictly increasing timestamps, the
   * same set of timestamps, and at each timestamp the collapsed row.
   */
  lemma DeduplicateCorrect(es: seq<Entry<real>>, cols: set<Column>)
    requires Sorted(es) && RowsCover(es, cols)
    ensures StrictlyIncreasing(Deduplicate(es, cols))
    ensures TimeSet(Deduplicate(es, cols)) == TimeSet(es)
    ensures forall j :: 0 <= j < |Deduplicate(es, cols)| ==>
              Deduplicate(es, cols)[j].time in TimeSet(es) &&
              Deduplicate(es, cols)[j] == Collapse(es, Deduplicate(es, cols)[j].time, cols)
  {
    var a := Averaged(es, cols);
    var r := Deduplicate(es, cols);
    AveragedTimes(es, cols);
    KeepFirstStrictlyIncreasing(a, {});
    forall j | 0 <= j < |r|
      ensures r[j].time in TimeSet(es) && r[j] == Collapse(es, r[j].time, cols)
    {
      DeduplicatedRow(es, cols, j);
    }
  }

  /** The j-th deduplicated row is the collapsed row of its timestamp. */
  lemma DeduplicatedRow(es: seq<Entry<real>>, cols: set<Column>, j: nat)
    requires Sorted(es) && RowsCover(es, cols) && j < |Deduplicate(es, cols)|
    ensures Deduplicate(es, cols)[j].time in TimeSet(es)
    ensures Deduplicate(es, cols)[j] == Collapse(es, Deduplicate(es, cols)[j].time, cols)
  {
    var a := Averaged(es, cols);
    var k := KeepFirstIsFirst(a, {}, j);
    assert forall i :: 0 <= i < k ==> es[i].time != es[k].time by {
      forall i | 0 <= i < k ensures es[i].time != es[k].time {
        assert a[i].time == es[i].time;
      }
    }
    assert IsRunStart(es, k);
    OccurrencesOfRun(es, k);
    assert es[k].time in TimeSet(es);
  }

  // ---------------------------------------------------------------------------
  // Pruning the known-faulty columns
  // ---------------------------------------------------------------------------

  const FaultyBladeTemps: set<Column> :=
    {"CS101__Blade_A_temp", "CS101__Blade_B_temp", "CS101__Blade_C_temp"}
  const FaultyInverterTemps: set<Column> :=
    {"CS101__Sys_2_inverter_5_cabinet_temp", "CS101__Sys_2_inverter_6_cabinet_temp",
     "CS101__Sys_2_inverter_7_cabinet_temp"}
  const ProductionCounters: set<Column> :=
    {"WEC_Operating_Hours", "WEC_Production_kWh", "WEC_Production_minutes"}
  const ErrorCode: set<Column> := {"Error"}

  /** The four `drop` calls of `clean_data`, in the order they are made. */
  const DropOrder: seq<set<Column>> := [FaultyBladeTemps, FaultyInverterTemps, ProductionCounters, ErrorCode]

  const DroppedColumns: set<Column> := FaultyBladeTemps + FaultyInverterTemps + ProductionCounters + ErrorCode

  lemma TenDroppedColumns()
    ensures |DroppedColumns| == 10
    ensures forall i, j :: 0 <= i < j < |DropOrder| ==> DropOrder[i] !! DropOrder[j]
  {
    DropGroupSizes();
    DropGroupsDisjoint();
  }

  lemma DropGroupSizes()
    ensures |FaultyBladeTemps| == 3 && |FaultyInverterTemps| == 3 && |ProductionCounters| == 3 && |ErrorCode| == 1
  {
  }

  lemma DropGroupsDisjoint()
    ensures FaultyBladeTemps !! FaultyInverterTemps && FaultyBladeTemps !! ProductionCounters
    ensures FaultyBladeTemps !! ErrorCode && FaultyInverterTemps !! ProductionCounters
    ensures FaultyInverterTemps !! ErrorCode && ProductionCounters !! ErrorCode
  {
  }

  lemma DropOrderUnion()
    ensures UnionOf(DropOrder) == DroppedColumns
  {
    var o := DropOrder;
    assert o[1..][1..][1..][1..] == [];
    assert UnionOf(o[1..][1..][1..]) == ErrorCode;
    assert UnionOf(o[1..][1..]) == ProductionCounters + ErrorCode;
    assert UnionOf(o[1..]) == FaultyInverterTemps + ProductionCounters + ErrorCode;
  }

  /** `DataFrame.drop(names, axis=1)`: all of `names` must be columns, or nothing is dropped. */
  function DropColumns(t: Table<real>, names: set<Column>): Result<Table<real>>
  {
    if names <= t.columns then
      Ok(Table(t.columns - names,
               seq(|t.entries|, k requires 0 <= k < |t.entries| =>
                 Entry(t.entries[k].time, t.entries[k].row - names))))
    else Err(KeyError(names - t.columns))
  }

  /**
   * The drop calls made one after the other, each in place: the first that
   * names an absent column raises, and the drops before it have happened.
   */
  function DropEach(t: Table<real>, groups: seq<set<Column>>): (Table<real>, Option<PipelineError>)
    decreases |groups|
  {
    if groups == [] then (t, None)
    else
      match DropColumns(t, groups[0])
      case Err(e) => (t, Some(e))
      case Ok(t') => DropEach(t', groups[1..])
  }

  function UnionOf(groups: seq<set<Column>>): set<Column>
  {
    if groups == [] then {} else groups[0] + UnionOf(groups[1..])
  }

  /**
   * Dropping disjoint groups one after another removes exactly their union
   * and leaves the rows and every other cell alone, or, when some listed
   * column is absent, raises a KeyError that names only listed, absent columns.
   */
  lemma {:induction false} DropEachCorrect(t: Table<real>, groups: seq<set<Column>>)
    requires forall i, j :: 0 <= i < j < |groups| ==> groups[i] !! groups[j]
    ensures |DropEach(t, groups).0.entries| == |t.entries|
    ensures forall k :: 0 <= k < |t.entries| ==> DropEach(t, groups).0.entries[k].time == t.entries[k].time
    ensures DropEach(t, groups).1 == None <==> UnionOf(groups) <= t.columns
    ensures DropEach(t, groups).1 == None ==>
              DropEach(t, groups).0.columns == t.columns - UnionOf(groups) &&
              forall k :: 0 <= k < |t.entries| ==>
                DropEach(t, groups).0.entries[k].row == t.entries[k].row - UnionOf(groups)
    ensures DropEach(t, groups).1.Some? ==>
              DropEach(t, groups).1.value.KeyError? &&
              DropEach(t, groups).1.value.missing != {} &&
              DropEach(t, groups).1.value.missing <= UnionOf(groups) - t.columns
    decreases |groups|
  {
    if groups != [] {
      var g := groups[0];
      var u := UnionOf(groups[1..]);
      assert UnionOf(groups) == g + u;
      assert g !! u by {
        UnionOfDisjoint(groups[1..], g);
      }
      if g <= t.columns {
        var t' := DropColumns(t, g).value;
        DropEachCorrect(t', groups[1..]);
        forall k | 0 <= k < |t.entries| ensures t.entries[k].row - g - u == t.entries[k].row - (g + u) {
        }
      } else {
        var x :| x in g && x !in t.columns;
        assert x in g - t.columns;
      }
    }
  }

  lemma {:induction false} UnionOfDisjoint(groups: seq<set<Column>>, g: set<Column>)
    requires forall i :: 0 <= i < |groups| ==> g !! groups[i]
    ensures g !! UnionOf(groups)
    decreases |groups|
  {
    if groups != [] {
      UnionOfDisjoint(groups[1..], g);
    }
  }

  // ---------------------------------------------------------------------------
  // The whole of clean_data
  // ---------------------------------------------------------------------------

  /** The grid-filtered rows, sorted by timestamp. */
  function Aligned(es: seq<Entry<real>>): (r: seq<Entry<real>>)
    ensures Sorted(r)
  {
    SortByTime(FilterGrid(es))
  }

  /** The timestamps of `es` that lie on the 10-minute grid. */
  function GridTimes(es: seq<Entry<real>>): set<Time>
  {
    set k | 0 <= k < |es| && OnGrid(es[k].time) :: es[k].time
  }

  /** The aligned rows are the input's on-grid rows, with their multiplicities. */
  lemma AlignedMultiset(es: seq<Entry<real>>)
    ensures forall x :: multiset(Aligned(es))[x] == if OnGrid(x.time) then multiset(es)[x] else 0
    ensures TimeSet(Aligned(es)) == GridTimes(es)
    ensures forall k :: 0 <= k < |Aligned(es)| ==> Aligned(es)[k] in es
  {
    AlignedMembers(es);
    AlignedTimes(es);
  }

  lemma AlignedMembers(es: seq<Entry<real>>)
    ensures forall k :: 0 <= k < |Aligned(es)| ==> Aligned(es)[k] in es && OnGrid(Aligned(es)[k].time)
  {
    var a := Aligned(es);
    forall k | 0 <= k < |a| ensures a[k] in es && OnGrid(a[k].time) {
      assert a[k] in multiset(a);
    }
  }

  lemma AlignedTimes(es: seq<Entry<real>>)
    ensures TimeSet(Aligned(es)) == GridTimes(es)
  {
    GridTimesAligned(es);
    AlignedTimesOnGrid(es);
  }

  lemma GridTimesAligned(es: seq<Entry<real>>)
    ensures GridTimes(es) <= TimeSet(Aligned(es))
  {
    var a := Aligned(es);
    forall x | x in GridTimes(es) ensures x in TimeSet(a) {
      var k :| 0 <= k < |es| && OnGrid(es[k].time) && es[k].time == x;
      assert multiset(a)[es[k]] == multiset(es)[es[k]];
      assert es[k] in multiset(a);
      var j :| 0 <= j < |a| && a[j] == es[k];
    }
  }

  lemma AlignedTimesOnGrid(es: seq<Entry<real>>)
    ensures TimeSet(Aligned(es)) <= GridTimes(es)
  {
    var a := Aligned(es);
    AlignedMembers(es);
    forall x | x in TimeSet(a) ensures x in GridTimes(es) {
      var j :| 0 <= j < |a| && a[j].time == x;
      var k :| 0 <= k < |es| && es[k] == a[j];
    }
  }

  /** At an on-grid timestamp, the aligned rows hold the same rows as the input. */
  lemma OccurrencesAligned(es: seq<Entry<real>>, t: Time)
    requires OnGrid(t)
    ensures multiset(Occurrences(Aligned(es), t)) == multiset(Occurrences(es, t))
  {
    AlignedMultiset(es);
    OccurrencesMultiset(Aligned(es), t);
    OccurrencesMultiset(es, t);
  }

  /** The collapsed row only depends on which rows carry the timestamp, not on their order. */
  lemma CollapsePermutation(a: seq<Entry<real>>, b: seq<Entry<real>>, t: Time, cols: set<Column>)
    requires t in TimeSet(a) && RowsCover(a, cols) && t in TimeSet(b) && RowsCover(b, cols)
    requires multiset(Occurrences(a, t)) == multiset(Occurrences(b, t))
    ensures Collapse(a, t, cols) == Collapse(b, t, cols)
  {
    var oa, ob := Occurrences(a, t), Occurrences(b, t);
    OccurrencesPresent(a, t);
    OccurrencesPresent(b, t);
    assert |oa| == |multiset(oa)| == |multiset(ob)| == |ob|;
    if |oa| > 1 {
      assert RowsCover(oa, cols) by {
        forall j | 0 <= j < |oa| ensures cols <= oa[j].row.Keys {
          assert oa[j] in oa;
        }
      }
      MeanRowPermutation(oa, ob, cols);
    } else {
      assert multiset(oa) == multiset{oa[0]} by { assert oa == [oa[0]]; }
      assert multiset(ob) == multiset{ob[0]} by { assert ob == [ob[0]]; }
    }
  }

  /** At an on-grid timestamp, the collapsed row is the same whether taken from the input or the aligned rows. */
  lemma CollapseAligned(es: seq<Entry<real>>, t: Time, cols: set<Column>)
    requires RowsCover(es, cols) && t in GridTimes(es)
    ensures RowsCover(Aligned(es), cols) && t in TimeSet(Aligned(es)) && t in TimeSet(es)
    ensures Collapse(Aligned(es), t, cols) == Collapse(es, t, cols)
  {
    AlignedCovers(es, cols);
    GridTimeKept(es, t);
    OccurrencesAligned(es, t);
    CollapsePermutation(Aligned(es), es, t, cols);
  }

  /** Aligning keeps only rows of the input, so it keeps their columns. */
  lemma AlignedCovers(es: seq<Entry<real>>, cols: set<Column>)
    requires RowsCover(es, cols)
    ensures RowsCover(Aligned(es), cols)
  {
    var a := Aligned(es);
    AlignedMembers(es);
    forall k | 0 <= k < |a| ensures cols <= a[k].row.Keys {
      var i :| 0 <= i < |es| && es[i] == a[k];
    }
  }

  /** An on-grid timestamp of the input is a timestamp of the aligned rows. */
  lemma GridTimeKept(es: seq<Entry<real>>, t: Time)
    requires t in GridTimes(es)
    ensures OnGrid(t) && t in TimeSet(es) && t in TimeSet(Aligned(es))
  {
    AlignedTimes(es);
    var k :| 0 <= k < |es| && OnGrid(es[k].time) && es[k].time == t;
    assert t in TimeSet(es);
  }

  /** `clean_data` as a function of the raw frame: the new frame, and the error it raised, if any. */
  function Clean(t: Table<real>): (Table<real>, Option<PipelineError>)
    requires Uniform(t)
  {
    AlignedMultiset(t.entries);
    Prune(Table(t.columns, Deduplicate(Aligned(t.entries), t.columns)))
  }

  /** Each drop keeps every row on the frame's columns, whether or not a later drop raises. */
  lemma {:induction false} DropEachUniform(t: Table<real>, groups: seq<set<Column>>)
    requires Uniform(t)
    ensures Uniform(DropEach(t, groups).0)
    decreases |groups|
  {
    if groups != [] {
      match DropColumns(t, groups[0])
      case Err(_) =>
      case Ok(t') => DropEachUniform(t', groups[1..]);
    }
  }

  /** The cleaned frame, complete or left partly pruned by a KeyError, has a cell for each of its columns in every row. */
  lemma CleanUniform(t: Table<real>)
    requires Uniform(t)
    ensures Uniform(Clean(t).0)
  {
    AlignedMultiset(t.entries);
    DeduplicateAligned(t.entries, t.columns);
    var d := Table(t.columns, Deduplicate(Aligned(t.entries), t.columns));
    assert Uniform(d);
    DropEachUniform(d, DropOrder);
  }

  /**
   * The cleaned timestamps are strictly increasing (so unique), all on the
   * grid, and exactly the on-grid timestamps of the input.
   */
  lemma CleanOrdered(t: Table<real>)
    requires Uniform(t)
    ensures StrictlyIncreasing(Clean(t).0.entries)
    ensures TimeSet(Clean(t).0.entries) == GridTimes(t.entries)
    ensures forall k :: 0 <= k < |Clean(t).0.entries| ==> OnGrid(Clean(t).0.entries[k].time)
  {
    AlignedMultiset(t.entries);
    var d := Deduplicate(Aligned(t.entries), t.columns);
    DeduplicateAligned(t.entries, t.columns);
    PruneCorrect(Table(t.columns, d));
    var c := Clean(t).0;
    forall k | 0 <= k < |c.entries| ensures OnGrid(c.entries[k].time) {
      assert c.entries[k].time in TimeSet(c.entries);
    }
  }

  /**
   * When all ten faulty columns are present, they and only they are gone, and
   * the row at each timestamp is the column-wise mean of the input rows at
   * that timestamp (the row itself when there is one); otherwise a KeyError.
   */
  lemma CleanFails(t: Table<real>)
    requires Uniform(t)
    ensures Clean(t).1 == None <==> DroppedColumns <= t.columns
    ensures Clean(t).1.Some? ==> Clean(t).1.value.KeyError? && Clean(t).1.value.missing != {} &&
                                 Clean(t).1.value.missing <= DroppedColumns - t.columns
  {
    AlignedMultiset(t.entries);
    PruneCorrect(Table(t.columns, Deduplicate(Aligned(t.entries), t.columns)));
  }

  lemma CleanContents(t: Table<real>)
    requires Uniform(t) && DroppedColumns <= t.columns
    ensures Clean(t).0.columns == t.columns - DroppedColumns && Uniform(Clean(t).0)
    ensures forall k :: 0 <= k < |Clean(t).0.entries| ==>
              Clean(t).0.entries[k].time in TimeSet(t.entries) &&
              Clean(t).0.entries[k].row ==
                Collapse(t.entries, Clean(t).0.entries[k].time, t.columns).row - DroppedColumns
  {
    AlignedMultiset(t.entries);
    DeduplicateAligned(t.entries, t.columns);
    PruneCollapsed(t.entries, t.columns, Deduplicate(Aligned(t.entries), t.columns));
  }

  /** Dropping the ten columns from rows that are each the collapse of their timestamp's rows. */
  lemma PruneCollapsed(es: seq<Entry<real>>, cols: set<Column>, d: seq<Entry<real>>)
    requires RowsCover(es, cols) && DroppedColumns <= cols
    requires forall j :: 0 <= j < |d| ==>
               d[j].time in TimeSet(es) && d[j] == Collapse(es, d[j].time, cols) && d[j].row.Keys == cols
    ensures var q := Prune(Table(cols, d)).0;
      q.columns == cols - DroppedColumns && Uniform(q) &&
      forall k :: 0 <= k < |q.entries| ==>
        q.entries[k].time in TimeSet(es) && q.entries[k].row == Collapse(es, q.entries[k].time, cols).row - DroppedColumns
  {
    PruneCorrect(Table(cols, d));
    PrunedRows(es, cols, d, Prune(Table(cols, d)).0);
  }


  /** Dropping the ten columns from the collapsed rows leaves the collapsed rows without them. */
  lemma PrunedRows(es: seq<Entry<real>>, cols: set<Column>, d: seq<Entry<real>>, q: Table<real>)
    requires RowsCover(es, cols)
    requires forall j :: 0 <= j < |d| ==>
               d[j].time in TimeSet(es) && d[j] == Collapse(es, d[j].time, cols) && d[j].row.Keys == cols
    requires q.columns == cols - DroppedColumns && |q.entries| == |d|
    requires forall k :: 0 <= k < |d| ==> q.entries[k].time == d[k].time && q.entries[k].row == d[k].row - DroppedColumns
    ensures Uniform(q)
    ensures forall k :: 0 <= k < |q.entries| ==>
              q.entries[k].time in TimeSet(es) &&
              q.entries[k].row == Collapse(es, q.entries[k].time, cols).row - DroppedColumns
  {
  }


  /** The four drop calls of `clean_data`. */
  function Prune(t: Table<real>): (Table<real>, Option<PipelineError>)
  {
    DropEach(t, DropOrder)
  }

  /**
   * Pruning removes exactly the ten listed columns and leaves every other
   * column and all rows untouched; if any listed column is absent, it raises.
   */
  lemma PruneCorrect(t: Table<real>)
    ensures |Prune(t).0.entries| == |t.entries|
    ensures forall k :: 0 <= k < |t.entries| ==> Prune(t).0.entries[k].time == t.entries[k].time
    ensures TimeSet(Prune(t).0.entries) == TimeSet(t.entries)
    ensures StrictlyIncreasing(t.entries) ==> StrictlyIncreasing(Prune(t).0.entries)
    ensures Prune(t).1 == None <==> DroppedColumns <= t.columns
    ensures Prune(t).1.Some? ==> Prune(t).1.value.KeyError? && Prune(t).1.value.missing != {} &&
                                 Prune(t).1.value.missing <= DroppedColumns - t.columns
    ensures Prune(t).1 == None ==>
              Prune(t).0.columns == t.columns - DroppedColumns &&
              forall k :: 0 <= k < |t.entries| ==> Prune(t).0.entries[k].row == t.entries[k].row - DroppedColumns
  {
    TenDroppedColumns();
    DropEachCorrect(t, DropOrder);
    DropOrderUnion();
  }

  /** Deduplicating the aligned rows: the cleaned frame before its columns are pruned. */
  lemma DeduplicateAligned(es: seq<Entry<real>>, cols: set<Column>)
    requires forall k :: 0 <= k < |es| ==> es[k].row.Keys == cols
    ensures RowsCover(Aligned(es), cols)
    ensures StrictlyIncreasing(Deduplicate(Aligned(es), cols))
    ensures TimeSet(Deduplicate(Aligned(es), cols)) == GridTimes(es)
    ensures forall j :: 0 <= j < |Deduplicate(Aligned(es), cols)| ==>
              Deduplicate(Aligned(es), cols)[j].time in TimeSet(es) &&
              Deduplicate(Aligned(es), cols)[j] == Collapse(es, Deduplicate(Aligned(es), cols)[j].time, cols) &&
              Deduplicate(Aligned(es), cols)[j].row.Keys == cols
  {
    AlignedMultiset(es);
    var a := Aligned(es);
    var d := Deduplicate(a, cols);
    DeduplicateCorrect(a, cols);
    forall j | 0 <= j < |d|
      ensures d[j].time in TimeSet(es) && d[j] == Collapse(es, d[j].time, cols) && d[j].row.Keys == cols
    {
      assert d[j].time in TimeSet(d);
      CollapseAligned(es, d[j].time, cols);
      CollapseRowKeys(es, d[j].time, cols);
    }
  }

  lemma CollapseRowKeys(es: seq<Entry<real>>, t: Time, cols: set<Column>)
    requires t in TimeSet(es) && forall k :: 0 <= k < |es| ==> es[k].row.Keys == cols
    ensures Collapse(es, t, cols).row.Keys == cols
  {
    OccurrencesPresent(es, t);
    var occ := Occurrences(es, t);
    assert occ[0] in occ;
  }
  // ---------------------------------------------------------------------------
  // Cleaning a frame that is already clean
  // ---------------------------------------------------------------------------

  /** The grid filter keeps rows that are all on the grid as they are. */
  lemma {:induction false} FilterGridOnGrid(es: seq<Entry<real>>)
    requires forall k :: 0 <= k < |es| ==> OnGrid(es[k].time)
    ensures FilterGrid(es) == es
  {
    if es != [] {
      FilterGridOnGrid(es[1..]);
      assert es == [es[0]] + es[1..];
    }
  }

  /** Sorting rows that are already sorted leaves them in place. */
  lemma {:induction false} SortByTimeSorted(es: seq<Entry<real>>)
    requires Sorted(es)
    ensures SortByTime(es) == es
  {
    if es != [] {
      SortByTimeSorted(es[1..]);
      assert es == [es[0]] + es[1..];
    }
  }

  /** With no repeated timestamp there is no run to average. */
  lemma AveragedIncreasing(es: seq<Entry<real>>, cols: set<Column>)
    requires RowsCover(es, cols) && StrictlyIncreasing(es)
    ensures Averaged(es, cols) == es
  {
    forall k | 0 <= k < |es| ensures AverageAt(es, k, cols) == es[k] {
      RunEndIs(es, k, k + 1);
    }
  }

  /** Keeping the first row of each timestamp drops nothing when no timestamp repeats or was seen. */
  lemma {:induction false} KeepFirstIncreasing(es: seq<Entry<real>>, seen: set<Time>)
    requires StrictlyIncreasing(es) && forall k :: 0 <= k < |es| ==> es[k].time !in seen
    ensures KeepFirst(es, seen) == es
    decreases |es|
  {
    if es != [] {
      KeepFirstIncreasing(es[1..], seen + {es[0].time});
      assert es == [es[0]] + es[1..];
    }
  }

  /**
   * Filter, sort and de-duplication together are the identity on rows that
   * are on the grid and strictly increasing: the averaging half of
   * `clean_data` changes nothing in a frame it has already cleaned.
   */
  lemma AlignedDeduplicateIdentity(es: seq<Entry<real>>, cols: set<Column>)
    requires RowsCover(es, cols) && StrictlyIncreasing(es)
    requires forall k :: 0 <= k < |es| ==> OnGrid(es[k].time)
    ensures Aligned(es) == es
    ensures Deduplicate(Aligned(es), cols) == es
  {
    FilterGridOnGrid(es);
    SortByTimeSorted(es);
    AveragedIncreasing(es, cols);
    KeepFirstIncreasing(es, {});
  }

  /** On a frame that is already on the grid and strictly increasing, `clean_data` only drops the ten columns. */
  lemma CleanAligned(t: Table<real>)
    requires Uniform(t) && StrictlyIncreasing(t.entries)
    requires forall k :: 0 <= k < |t.entries| ==> OnGrid(t.entries[k].time)
    ensures Clean(t) == Prune(t)
  {
    AlignedDeduplicateIdentity(t.entries, t.columns);
  }

  /**
   * `clean_data` is not idempotent: on a frame it has cleaned, the ten
   * columns are gone, so the first `drop` call raises a KeyError naming the
   * three blade temperatures.
   */
  lemma CleanTwiceFails(t: Table<real>)
    requires Uniform(t) && Clean(t).1 == None
    ensures Uniform(Clean(t).0)
    ensures Clean(Clean(t).0).1 == Some(KeyError(FaultyBladeTemps))
  {
    CleanFails(t);
    CleanColumns(t);
    CleanOrdered(t);
    CleanUniform(t);
    var c := Clean(t).0;
    CleanAligned(c);
    PruneWithoutBlades(c);
  }

  /** A successful clean leaves the input's columns minus the ten. */
  lemma CleanColumns(t: Table<real>)
    requires Uniform(t) && DroppedColumns <= t.columns
    ensures Clean(t).0.columns == t.columns - DroppedColumns
  {
    CleanContents(t);
  }

  /** With none of the blade temperatures present, the first `drop` call raises and names all three. */
  lemma PruneWithoutBlades(t: Table<real>)
    requires FaultyBladeTemps !! t.columns
    ensures Prune(t) == (t, Some(KeyError(FaultyBladeTemps)))
  {
    assert DropOrder[0] == FaultyBladeTemps;
    assert "CS101__Blade_A_temp" in FaultyBladeTemps - t.columns;
    assert FaultyBladeTemps - t.columns == FaultyBladeTemps;
  }
}
