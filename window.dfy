/**
 * The Rolling Statistics stage (`create_mean_std_features`). For every index
 * time T, the rows stamped within the closed window [T - 2h, T] give a
 * "2hr_mean_" feature per column, written only when exactly 13 rows fall in
 * the window (the two full hours at a 10-minute pitch), and a "2hr_std_"
 * feature per column, always written. The standard deviation itself is a
 * parameter of the model.
 */
module Window {
  import opened Tables
  import Cleaner

  /** The span of the window, in minutes. */
  const TwoHours: int := 120

  /** The number of rows a complete window holds. */
  const FullWindow: nat := 13

  const MeanPrefix: string := "2hr_mean_"
  const StdPrefix: string := "2hr_std_"

  function MeanName(c: Column): Column { MeanPrefix + c }
  function StdName(c: Column): Column { StdPrefix + c }

  function MeanNames(cols: set<Column>): set<Column> { set c | c in cols :: MeanName(c) }
  function StdNames(cols: set<Column>): set<Column> { set c | c in cols :: StdName(c) }

  /** The two prefixes keep every feature name apart. */
  lemma NamesDistinct(c: Column, d: Column)
    ensures MeanName(c) != StdName(d)
    ensures MeanName(c) == MeanName(d) ==> c == d
    ensures StdName(c) == StdName(d) ==> c == d
  {
    assert MeanName(c)[4] == 'm' && StdName(d)[4] == 's';
    assert MeanName(c)[|MeanPrefix|..] == c && MeanName(d)[|MeanPrefix|..] == d;
    assert StdName(c)[|StdPrefix|..] == c && StdName(d)[|StdPrefix|..] == d;
  }

  /** `scada_data.loc[T - 2h : T]`: the rows stamped in the closed window ending at `t`, in index order. */
  function InWindow(es: seq<Entry<real>>, t: Time): (w: seq<Entry<real>>)
    ensures |w| <= |es|
  {
    if es == [] then []
    else (if t - TwoHours <= es[0].time <= t then [es[0]] else []) + InWindow(es[1..], t)
  }

  /** The window holds exactly the rows of the frame stamped within it. */
  lemma {:induction false} InWindowMembers(es: seq<Entry<real>>, t: Time)
    ensures forall e :: e in InWindow(es, t) <==> e in es && t - TwoHours <= e.time <= t
  {
    if es != [] {
      InWindowMembers(es[1..], t);
      assert es == [es[0]] + es[1..];
    }
  }

  /** The cells of column `c` over a block of rows, in order. */
  function ColumnValues(w: seq<Entry<real>>, c: Column): (v: seq<real>)
    requires forall k :: 0 <= k < |w| ==> c in w[k].row
    ensures |v| == |w| && forall k :: 0 <= k < |w| ==> v[k] == w[k].row[c]
  {
    seq(|w|, k requires 0 <= k < |w| => w[k].row[c])
  }

  /** Every window of a frame has the frame's columns. */
  lemma WindowsCover(es: seq<Entry<real>>, cols: set<Column>)
    requires RowsCover(es, cols)
    ensures forall t :: RowsCover(InWindow(es, t), cols)
  {
    forall t ensures RowsCover(InWindow(es, t), cols) {
      var w := InWindow(es, t);
      InWindowMembers(es, t);
      forall k | 0 <= k < |w| ensures cols <= w[k].row.Keys {
        assert w[k] in es;
        var j :| 0 <= j < |es| && es[j] == w[k];
      }
    }
  }

  /** The window ending at `t`, for a frame whose rows all have `cols`. */
  function CoveredWindow(es: seq<Entry<real>>, t: Time, cols: set<Column>): (w: seq<Entry<real>>)
    requires RowsCover(es, cols)
    ensures w == InWindow(es, t) && RowsCover(w, cols)
  {
    WindowsCover(es, cols);
    InWindow(es, t)
  }

  /** The mean features at time `t`: all present when its window is full, all missing otherwise. */
  function MeanCells(es: seq<Entry<real>>, t: Time, cols: set<Column>): (r: map<Column, Option<real>>)
    requires RowsCover(es, cols)
    ensures r.Keys == MeanNames(cols)
  {
    WindowsCover(es, cols);
    var w := InWindow(es, t);
    forall c, d | c in cols && d in cols ensures MeanName(c) == MeanName(d) ==> c == d { NamesDistinct(c, d); }
    if |w| == FullWindow then
      var m := MeanRow(w, cols);
      map c | c in cols :: MeanName(c) := Some(m[c])
    else
      map c | c in cols :: MeanName(c) := None
  }

  /** The deviation features at time `t`, `spread` giving the deviation of a column's cells in its window. */
  function StdCells(es: seq<Entry<real>>, t: Time, cols: set<Column>, spread: seq<real> -> Option<real>): (r: map<Column, Option<real>>)
    requires RowsCover(es, cols)
    ensures r.Keys == StdNames(cols)
  {
    WindowsCover(es, cols);
    var w := InWindow(es, t);
    forall c, d | c in cols && d in cols ensures StdName(c) == StdName(d) ==> c == d { NamesDistinct(c, d); }
    map c | c in cols :: StdName(c) := spread(ColumnValues(w, c))
  }

  // ---------------------------------------------------------------------------
  // What a full window means on the 10-minute grid
  // ---------------------------------------------------------------------------

  /** Two distinct grid times lie at least one grid step apart. */
  lemma GridApart(x: Time, y: Time)
    requires x % GridStep == 0 && y % GridStep == 0 && y < x
    ensures y + GridStep <= x
  {
    var a, b := x / GridStep, y / GridStep;
    assert x == GridStep * a && y == GridStep * b;
  }

  /** A grid time less than one step above another grid time is that time. */
  lemma GridSame(x: Time, y: Time)
    requires x % GridStep == 0 && y % GridStep == 0 && y <= x < y + GridStep
    ensures x == y
  {
    var a, b := x / GridStep, y / GridStep;
    assert x == GridStep * a && y == GridStep * b;
  }

  /**
   * Rows with strictly increasing grid timestamps within [lo, hi] are at most
   * one per grid time there, and they are that many only when they are
   * stamped lo, lo + 10, …, hi in turn.
   */
  lemma {:induction false} GridPacked(w: seq<Entry<real>>, lo: Time, hi: Time)
    requires StrictlyIncreasing(w) && lo % GridStep == 0 && lo <= hi + GridStep
    requires forall k :: 0 <= k < |w| ==> w[k].time % GridStep == 0 && lo <= w[k].time <= hi
    ensures GridStep * |w| <= hi - lo + GridStep
    ensures GridStep * |w| == hi - lo + GridStep ==> forall k :: 0 <= k < |w| ==> w[k].time == lo + GridStep * k
    decreases |w|
  {
    if w != [] {
      var rest := w[1..];
      assert lo <= w[0].time <= hi;
      GridApartFirst(w, lo);
      GridPacked(rest, lo + GridStep, hi);
      assert GridStep * |w| == GridStep * |rest| + GridStep;
      if GridStep * |w| == hi - lo + GridStep {
        if |w| > 1 {
          assert rest[0] == w[1];
        }
        GridSame(w[0].time, lo);
        forall k | 0 <= k < |w| ensures w[k].time == lo + GridStep * k {
          if k > 0 { assert w[k] == rest[k - 1]; }
        }
      }
    }
  }

  /** Past the first row, every timestamp is at least one step above `lo`. */
  lemma GridApartFirst(w: seq<Entry<real>>, lo: Time)
    requires StrictlyIncreasing(w) && w != [] && lo % GridStep == 0
    requires forall k :: 0 <= k < |w| ==> w[k].time % GridStep == 0 && lo <= w[k].time
    ensures (lo + GridStep) % GridStep == 0
    ensures forall k :: 1 <= k < |w| ==> lo + GridStep <= w[k].time
  {
    forall k | 1 <= k < |w| ensures lo + GridStep <= w[k].time {
      GridApart(w[k].time, w[0].time);
    }
  }

  /** Rows that carry each of the n grid times t, t - 10, …, t - 10·(n-1) number at least n. */
  lemma {:induction false} GridCovered(w: seq<Entry<real>>, t: Time, n: nat)
    requires forall j :: 0 <= j < n ==> Before(t, j) in TimeSet(w)
    ensures n <= |w|
    decreases n
  {
    if n > 0 {
      assert Before(t, n - 1) in TimeSet(w);
      var i :| 0 <= i < |w| && w[i].time == Before(t, n - 1);
      var rest := w[..i] + w[i + 1..];
      forall j | 0 <= j < n - 1 ensures Before(t, j) in TimeSet(rest) {
        assert Before(t, j) in TimeSet(w);
        var k :| 0 <= k < |w| && w[k].time == Before(t, j);
        if k < i { assert rest[k] == w[k]; } else { assert rest[k - 1] == w[k]; }
      }
      GridCovered(rest, t, n - 1);
    }
  }

  /** The window keeps the index order, so its timestamps stay strictly increasing. */
  lemma {:induction false} InWindowIncreasing(es: seq<Entry<real>>, t: Time)
    requires StrictlyIncreasing(es)
    ensures StrictlyIncreasing(InWindow(es, t))
    decreases |es|
  {
    if es != [] {
      var rest := InWindow(es[1..], t);
      InWindowIncreasing(es[1..], t);
      InWindowMembers(es[1..], t);
      forall k | 0 <= k < |rest| ensures es[0].time < rest[k].time {
        assert rest[k] in rest;
        var i :| 0 <= i < |es[1..]| && es[1..][i] == rest[k];
        assert es[i + 1] == rest[k];
      }
      var w := [es[0]] + rest;
      forall i, j | 0 <= i < j < |w| ensures w[i].time < w[j].time {
        assert w[j] == rest[j - 1];
        if i > 0 { assert w[i] == rest[i - 1]; }
      }
    }
  }

  /** The window of a grid time over strictly increasing grid rows: increasing grid times within two hours, all from the index. */
  lemma WindowOnGrid(es: seq<Entry<real>>, t: Time)
    requires StrictlyIncreasing(es) && Cleaner.OnGrid(t)
    requires forall k :: 0 <= k < |es| ==> Cleaner.OnGrid(es[k].time)
    ensures StrictlyIncreasing(InWindow(es, t)) && (t - TwoHours) % GridStep == 0
    ensures forall k :: 0 <= k < |InWindow(es, t)| ==>
              InWindow(es, t)[k].time % GridStep == 0 && t - TwoHours <= InWindow(es, t)[k].time <= t &&
              InWindow(es, t)[k].time in TimeSet(es)
  {
    var w := InWindow(es, t);
    InWindowMembers(es, t);
    InWindowIncreasing(es, t);
    Cleaner.OnGridIsMultipleOfTen(t);
    forall k | 0 <= k < |w| ensures w[k].time % GridStep == 0 && t - TwoHours <= w[k].time <= t && w[k].time in TimeSet(es) {
      assert w[k] in w;
      var i :| 0 <= i < |es| && es[i] == w[k];
      Cleaner.OnGridIsMultipleOfTen(es[i].time);
    }
  }

  /** A full window has a row at `t` and at each of the twelve grid times before it. */
  lemma FullWindowHasTicks(es: seq<Entry<real>>, t: Time)
    requires StrictlyIncreasing(es) && Cleaner.OnGrid(t)
    requires forall k :: 0 <= k < |es| ==> Cleaner.OnGrid(es[k].time)
    requires |InWindow(es, t)| == FullWindow
    ensures forall j :: 0 <= j < FullWindow ==> Before(t, j) in TimeSet(es)
  {
    var w := InWindow(es, t);
    WindowOnGrid(es, t);
    GridPacked(w, t - TwoHours, t);
    forall j | 0 <= j < FullWindow ensures Before(t, j) in TimeSet(es) {
      assert w[FullWindow - 1 - j].time == Before(t, j);
    }
  }

  /** Rows at `t` and at each of the twelve grid times before it fill the window. */
  lemma TicksFillWindow(es: seq<Entry<real>>, t: Time)
    requires StrictlyIncreasing(es) && Cleaner.OnGrid(t)
    requires forall k :: 0 <= k < |es| ==> Cleaner.OnGrid(es[k].time)
    requires forall j :: 0 <= j < FullWindow ==> Before(t, j) in TimeSet(es)
    ensures |InWindow(es, t)| == FullWindow
  {
    var w := InWindow(es, t);
    WindowOnGrid(es, t);
    GridPacked(w, t - TwoHours, t);
    InWindowMembers(es, t);
    forall j | 0 <= j < FullWindow ensures Before(t, j) in TimeSet(w) {
      var i :| 0 <= i < |es| && es[i].time == Before(t, j);
      assert es[i] in es;
      var k :| 0 <= k < |w| && w[k] == es[i];
    }
    GridCovered(w, t, FullWindow);
  }

  /**
   * On strictly increasing grid timestamps, the window of a grid time `t`
   * holds its 13 rows exactly when `t` and each of the twelve grid times
   * before it have a row: a full window is two unbroken hours of readings.
   */
  lemma FullWindowTicks(es: seq<Entry<real>>, t: Time)
    requires StrictlyIncreasing(es) && Cleaner.OnGrid(t)
    requires forall k :: 0 <= k < |es| ==> Cleaner.OnGrid(es[k].time)
    ensures |InWindow(es, t)| == FullWindow <==> forall j :: 0 <= j < FullWindow ==> Before(t, j) in TimeSet(es)
  {
    if |InWindow(es, t)| == FullWindow {
      FullWindowHasTicks(es, t);
    }
    if forall j :: 0 <= j < FullWindow ==> Before(t, j) in TimeSet(es) {
      TicksFillWindow(es, t);
    }
  }

  /** The rows of the result that are written before the renaming step can fail. */
  predicate Renamable(es: seq<Entry<real>>, cols: set<Column>)
  {
    cols == {} || (es != [] && |InWindow(es, es[|es| - 1].time)| == FullWindow)
  }

  /**
   * `create_mean_std_features` as a function of `scada_data`: the new frame
   * and the error raised, if any. The new-column list is built with the
   * window test of the last index time (the loop variable left over from the
   * first loop), once per column: with no index the variable was never bound,
   * and with a short last window the list is empty and cannot rename the
   * columns. Either way the frame is left as the empty frame on the index.
   */
  function MeanStd(scada: Table<real>, spread: seq<real> -> Option<real>): (Table<Option<real>>, Option<PipelineError>)
    requires Uniform(scada)
  {
    var es, cols := scada.entries, scada.columns;
    if cols != {} && es == [] then (IndexFrame(es), Some(NameError))
    else if !Renamable(es, cols) then (IndexFrame(es), Some(LengthMismatch(|cols|, 0)))
    else (WindowFeatures(es, cols, spread), None)
  }

  /** The frame of both feature families, on the index of `es`. */
  function WindowFeatures(es: seq<Entry<real>>, cols: set<Column>, spread: seq<real> -> Option<real>): (r: Table<Option<real>>)
    requires RowsCover(es, cols)
    ensures r.columns == StdNames(cols) + MeanNames(cols) && |r.entries| == |es|
    ensures forall k :: 0 <= k < |es| ==> r.entries[k] == Entry(es[k].time, FeatureRow(es, es[k].time, cols, spread))
  {
    Table(StdNames(cols) + MeanNames(cols),
          seq(|es|, k requires 0 <= k < |es| => Entry(es[k].time, FeatureRow(es, es[k].time, cols, spread))))
  }

  /** One row of that frame: the deviation features of time `t`, then its mean features. */
  function FeatureRow(es: seq<Entry<real>>, t: Time, cols: set<Column>, spread: seq<real> -> Option<real>): map<Column, Option<real>>
    requires RowsCover(es, cols)
  {
    StdCells(es, t, cols, spread) + MeanCells(es, t, cols)
  }

  /** The first loop: the mean features of every index time's window. */
  method WindowMeans(es: seq<Entry<real>>, cols: set<Column>) returns (means: seq<map<Column, Option<real>>>)
    requires RowsCover(es, cols)
    ensures |means| == |es|
    ensures forall k :: 0 <= k < |es| ==> means[k] == MeanCells(es, es[k].time, cols)
  {
    means := [];
    for i := 0 to |es|
      invariant |means| == i
      invariant forall k :: 0 <= k < i ==> means[k] == MeanCells(es, es[k].time, cols)
    {
      means := means + [MeanCells(es, es[i].time, cols)];
    }
  }

  /** The second loop: the deviation features of every index time's window. */
  method WindowStds(es: seq<Entry<real>>, cols: set<Column>, spread: seq<real> -> Option<real>)
    returns (stds: seq<map<Column, Option<real>>>)
    requires RowsCover(es, cols)
    ensures |stds| == |es|
    ensures forall k :: 0 <= k < |es| ==> stds[k] == StdCells(es, es[k].time, cols, spread)
  {
    stds := [];
    for i := 0 to |es|
      invariant |stds| == i
      invariant forall k :: 0 <= k < i ==> stds[k] == StdCells(es, es[k].time, cols, spread)
    {
      stds := stds + [StdCells(es, es[i].time, cols, spread)];
    }
  }

  /** `pd.concat([left, right], axis=1)` of two frames on the index of `es`, given by their rows. */
  function SideBySide<V>(es: seq<Entry<real>>, columns: set<Column>, left: seq<map<Column, V>>, right: seq<map<Column, V>>): (r: Table<V>)
    requires |left| == |es| && |right| == |es|
    ensures |r.entries| == |es|
    ensures forall k :: 0 <= k < |es| ==> r.entries[k].time == es[k].time && r.entries[k].row == left[k] + right[k]
  {
    Table(columns, seq(|es|, k requires 0 <= k < |es| => Entry(es[k].time, left[k] + right[k])))
  }

  /** Joining the two loops' rows side by side gives the frame of both feature families. */
  lemma Assembled(es: seq<Entry<real>>, cols: set<Column>, spread: seq<real> -> Option<real>,
                  stds: seq<map<Column, Option<real>>>, means: seq<map<Column, Option<real>>>)
    requires RowsCover(es, cols) && |stds| == |es| && |means| == |es|
    requires forall k :: 0 <= k < |es| ==> stds[k] == StdCells(es, es[k].time, cols, spread)
    requires forall k :: 0 <= k < |es| ==> means[k] == MeanCells(es, es[k].time, cols)
    ensures SideBySide(es, StdNames(cols) + MeanNames(cols), stds, means) == WindowFeatures(es, cols, spread)
  {
    var f, g := SideBySide(es, StdNames(cols) + MeanNames(cols), stds, means), WindowFeatures(es, cols, spread);
    assert f.entries == g.entries by {
      forall k | 0 <= k < |es| ensures f.entries[k] == g.entries[k] {
        assert g.entries[k].row == FeatureRow(es, es[k].time, cols, spread);
      }
    }
  }

  /** `create_mean_std_features`: the two loops over the index and the renaming between them. */
  method CreateMeanStd(scada: Table<real>, spread: seq<real> -> Option<real>)
    returns (frame: Table<Option<real>>, err: Option<PipelineError>)
    requires Uniform(scada)
    ensures (frame, err) == MeanStd(scada, spread)
  {
    var es, cols := scada.entries, scada.columns;
    var means := WindowMeans(es, cols);
    if cols != {} && es == [] {
      frame, err := IndexFrame(es), Some(NameError);
    } else if !Renamable(es, cols) {
      frame, err := IndexFrame(es), Some(LengthMismatch(|cols|, 0));
    } else {
      var stds := WindowStds(es, cols, spread);
      frame := SideBySide(es, StdNames(cols) + MeanNames(cols), stds, means);
      err := None;
      Assembled(es, cols, spread, stds, means);
    }
  }

  /**
   * What `create_mean_std_features` produces: a frame on the index of
   * `scada_data`; the naming error exactly when there are columns and either no
   * index or a short last window; otherwise, per column and index time, the
   * deviation of the column over the window, and the mean of the column over the
   * window if and only if the window holds 13 rows.
   */
  lemma MeanStdCorrect(scada: Table<real>, spread: seq<real> -> Option<real>)
    requires Uniform(scada)
    ensures var (frame, err) := MeanStd(scada, spread);
      Uniform(frame) && |frame.entries| == |scada.entries|
      && (forall k :: 0 <= k < |scada.entries| ==> frame.entries[k].time == scada.entries[k].time)
      && (err == Some(NameError) <==> scada.columns != {} && scada.entries == [])
      && (err.None? <==> Renamable(scada.entries, scada.columns))
      && (err.Some? ==> frame.columns == {} && err.value in {NameError, LengthMismatch(|scada.columns|, 0)})
  {
  }

  /** The deviation feature of column `c` is the deviation of its cells in the window. */
  lemma StdCellValue(es: seq<Entry<real>>, t: Time, cols: set<Column>, spread: seq<real> -> Option<real>, c: Column)
    requires RowsCover(es, cols) && c in cols
    ensures StdName(c) in StdCells(es, t, cols, spread)
    ensures StdCells(es, t, cols, spread)[StdName(c)] == spread(ColumnValues(CoveredWindow(es, t, cols), c))
  {
    forall d | d in cols ensures StdName(d) == StdName(c) ==> d == c { NamesDistinct(d, c); }
  }

  /** The mean feature of column `c` is present exactly for a full window, and is then the column's mean. */
  lemma MeanCellValue(es: seq<Entry<real>>, t: Time, cols: set<Column>, c: Column)
    requires RowsCover(es, cols) && c in cols
    ensures MeanName(c) in MeanCells(es, t, cols)
    ensures var w := CoveredWindow(es, t, cols);
      (MeanCells(es, t, cols)[MeanName(c)].Some? <==> |w| == FullWindow)
      && (|w| == FullWindow ==> MeanCells(es, t, cols)[MeanName(c)].value == MeanRow(w, cols)[c])
  {
    forall d | d in cols ensures MeanName(d) == MeanName(c) ==> d == c { NamesDistinct(d, c); }
  }

  /**
   * When the renaming succeeds, the stage raises nothing, its frame has both
   * families of names, and in the row of each timestamp every column has its
   * window's deviation under its "2hr_std_" name and its mean cell (present
   * exactly for a full window, see MeanCellValue) under its "2hr_mean_" name.
   */
  lemma MeanStdCells(scada: Table<real>, spread: seq<real> -> Option<real>, k: nat, c: Column)
    requires Uniform(scada) && Renamable(scada.entries, scada.columns)
    requires k < |scada.entries| && c in scada.columns
    ensures RowsCover(scada.entries, scada.columns)
    ensures MeanStd(scada, spread).1 == None && |MeanStd(scada, spread).0.entries| == |scada.entries|
    ensures var f, cols := MeanStd(scada, spread).0, scada.columns;
      f.columns == StdNames(cols) + MeanNames(cols)
      && StdName(c) in f.entries[k].row && MeanName(c) in f.entries[k].row
    ensures var f, es, cols := MeanStd(scada, spread).0, scada.entries, scada.columns;
      var w := CoveredWindow(es, es[k].time, cols);
      f.entries[k].row[StdName(c)] == spread(ColumnValues(w, c))
      && f.entries[k].row[MeanName(c)] == MeanCells(es, es[k].time, cols)[MeanName(c)]
  {
    var es, cols := scada.entries, scada.columns;
    MeanStdRenamed(scada, spread);
    WindowFeaturesCells(es, cols, spread, k, c);
    FeatureRowLookup(es, es[k].time, cols, spread, c);
  }

  /** On success, the stage's frame is that of both feature families. */
  lemma MeanStdRenamed(scada: Table<real>, spread: seq<real> -> Option<real>)
    requires Uniform(scada) && Renamable(scada.entries, scada.columns)
    ensures RowsCover(scada.entries, scada.columns)
    ensures MeanStd(scada, spread) == (WindowFeatures(scada.entries, scada.columns, spread), None)
  {
  }

  /** No deviation feature is named like a mean feature. */
  lemma StdNotMean(cols: set<Column>, c: Column)
    ensures StdName(c) !in MeanNames(cols)
  {
    forall d | d in cols ensures MeanName(d) != StdName(c) { NamesDistinct(d, c); }
  }

  /** Every cell of a row of the frame is the statistic of its column over the window. */
  lemma FeatureRowCells(es: seq<Entry<real>>, t: Time, cols: set<Column>, spread: seq<real> -> Option<real>, c: Column)
    requires RowsCover(es, cols) && c in cols
    ensures StdName(c) in FeatureRow(es, t, cols, spread) && MeanName(c) in FeatureRow(es, t, cols, spread)
    ensures var row, w := FeatureRow(es, t, cols, spread), CoveredWindow(es, t, cols);
      row[StdName(c)] == spread(ColumnValues(w, c))
      && (row[MeanName(c)].Some? <==> |w| == FullWindow)
      && (|w| == FullWindow ==> row[MeanName(c)].value == MeanRow(w, cols)[c])
  {
    StdCellValue(es, t, cols, spread, c);
    MeanCellValue(es, t, cols, c);
    FeatureRowLookup(es, t, cols, spread, c);
  }

  /** A row of the frame takes each feature from the family that names it. */
  lemma FeatureRowLookup(es: seq<Entry<real>>, t: Time, cols: set<Column>, spread: seq<real> -> Option<real>, c: Column)
    requires RowsCover(es, cols) && c in cols
    ensures StdName(c) in FeatureRow(es, t, cols, spread) && MeanName(c) in FeatureRow(es, t, cols, spread)
    ensures FeatureRow(es, t, cols, spread)[StdName(c)] == StdCells(es, t, cols, spread)[StdName(c)]
    ensures FeatureRow(es, t, cols, spread)[MeanName(c)] == MeanCells(es, t, cols)[MeanName(c)]
  {
    StdNotMean(cols, c);
  }

  /** On success, every cell of the frame is the statistic of its column over its window. */
  lemma WindowFeaturesCells(es: seq<Entry<real>>, cols: set<Column>, spread: seq<real> -> Option<real>, k: nat, c: Column)
    requires RowsCover(es, cols) && k < |es| && c in cols
    ensures var f := WindowFeatures(es, cols, spread);
      |f.entries| == |es| && StdName(c) in f.entries[k].row && MeanName(c) in f.entries[k].row
    ensures var f, w := WindowFeatures(es, cols, spread), CoveredWindow(es, es[k].time, cols);
      f.entries[k].row[StdName(c)] == spread(ColumnValues(w, c))
      && (f.entries[k].row[MeanName(c)].Some? <==> |w| == FullWindow)
      && (|w| == FullWindow ==> f.entries[k].row[MeanName(c)].value == MeanRow(w, cols)[c])
  {
    FeatureRowCells(es, es[k].time, cols, spread, c);
  }

  /**
   * On a frame with strictly increasing grid timestamps (as `clean_data`
   * leaves it), the mean feature of a row is written exactly when the row and
   * the twelve grid times before it all have readings.
   */
  lemma MeanWrittenIffUnbroken(es: seq<Entry<real>>, cols: set<Column>, k: nat, c: Column)
    requires RowsCover(es, cols) && StrictlyIncreasing(es) && k < |es| && c in cols
    requires forall i :: 0 <= i < |es| ==> Cleaner.OnGrid(es[i].time)
    ensures MeanName(c) in MeanCells(es, es[k].time, cols)
    ensures MeanCells(es, es[k].time, cols)[MeanName(c)].Some? <==>
              forall j :: 0 <= j < FullWindow ==> Before(es[k].time, j) in TimeSet(es)
  {
    MeanCellValue(es, es[k].time, cols, c);
    FullWindowTicks(es, es[k].time);
  }
}
