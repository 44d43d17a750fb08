# Enercon wind turbine data: a Dafny model of the feature pipeline

This project models the batch transformations of the `EnerconWindTurbineData`
class in `WindTurbine.py`. The class holds a turbine's SCADA readings and its
status log. It turns them, one stage at a time, into the frames used for fault
detection:

- `clean_data` keeps the readings stamped on the 10-minute grid and sorts them.
  It replaces every run of equal timestamps by the run's mean, kept on its first
  row. Then it drops the ten known-faulty or irrelevant columns in four `drop`
  calls. Cleaning is not idempotent: on a frame it has already cleaned, the
  averaging steps change nothing, but the first `drop` raises a KeyError,
  because the blade-temperature columns are gone.
- `create_new_features` derives per-row averages and differences. It does this
  with a list of column assignments in which a later assignment to the same
  name replaces an earlier one. A missing SCADA column raises a KeyError that
  names, for a difference, the left operand first.
- `create_mean_std_features` computes, for each timestamp, statistics over the
  closed two-hour window that ends at it:
  - the standard deviation is always written;
  - the mean is written only when the window holds exactly 13 readings;
  - the new-column list is built from the window of the *last* timestamp, so
    the renaming step can raise.

  On strictly increasing 10-minute timestamps, a window is full exactly when
  its timestamp and each of the twelve grid times before it have a reading.
- `create_lagged_features(n)` shifts the readings by 10·i minutes for i = 1..n
  and renames each column `<name>_t-<10·i>min`. It inner-joins each shifted
  copy onto the index.
- `create_labels` labels every timestamp with 0 or with the code of a tracked
  fault (80, 62, 228, 60, 9). A code covers the timestamps strictly between its
  status row and the next row.

## How the model is built

- **Frames.** Frames are values of `Tables.Table<V>`. A table is a set of
  column names plus a sequence of rows. Each row is a timestamp (an integer
  count of minutes) and a map from column to cell.
- **One stage per module.** Each stage is specified by a function:
  - `Cleaner.Clean`;
  - `Features.NewFeatures`;
  - `Window.MeanStd`;
  - `Lags.Lagged`;
  - `Labels.Labels`.
- **Loops become methods.** Where the source loops, a method does the same
  loop and is proved equal to the stage's function:
  - `Cleaner.AverageDuplicates`;
  - `Window.CreateMeanStd`;
  - `Lags.CreateLagged`;
  - `Labels.CreateLabels`.
- **The class.** `Turbine.EnerconWindTurbineData` keeps the source's fields.
  Each of its methods replaces one field with the stage's result and leaves the
  others unchanged.
- **Errors.** A stage that raises in the source returns the error next to the
  frame it leaves behind:
  - `KeyError` for a missing column;
  - `NameError` for the loop variable that is never bound;
  - a length mismatch for the renaming step.

The model reproduces three repeated assignments exactly as written. It also
proves which value each of those features ends up with:

- `Diff_P_wind_P_technical` is assigned twice (lines 263 and 265);
- `Diff_avg_Power_P_wind` is assigned four times (lines 271-274);
- `Diff_avg_nacelle_ambient_temp` is assigned twice (lines 327-328).

## Model

| member | source | states |
|---|---|---|
| Turbine.EnerconWindTurbineData.constructor | WindTurbine.py:35-57 | the object starts with the loaded SCADA frame and status log, and with every derived frame empty |
| Turbine.EnerconWindTurbineData.CleanData | WindTurbine.py:181-205 | `scada_data` becomes the cleaned frame and the error of `clean_data`; no other field changes |
| Turbine.EnerconWindTurbineData.CreateNewFeatures | WindTurbine.py:210-348 | `new_features` becomes the derived-feature frame of `scada_data`; no other field changes |
| Turbine.EnerconWindTurbineData.CreateMeanStdFeatures | WindTurbine.py:354-386 | `mean_std` becomes the window-feature frame, or the index frame with the raised error; no other field changes |
| Turbine.EnerconWindTurbineData.CreateLaggedFeatures | WindTurbine.py:392-408 | `lagged_features` becomes the frame of lags 1..n; no other field changes |
| Turbine.EnerconWindTurbineData.CreateLabels | WindTurbine.py:417-430 | `ylabels` becomes the fault labels of the given index, one per timestamp; no other field changes |
| Tables.IndexFrame | WindTurbine.py:212 | a frame built on an index has no column, and has one row per index time with the same timestamps |
| Tables.MeanRowPermutation | WindTurbine.py:187-192 | the column means of a run of rows do not depend on the order of its rows, so sorting cannot change an average |
| Tables.MeanOfOneRow | WindTurbine.py:191-193 | the mean of a single row is that row, which is why a run of length 1 is left as it is |
| Cleaner.Minute | WindTurbine.py:184 | the minute of a timestamp lies in 0..59 |
| Cleaner.OnGridIsMultipleOfTen | WindTurbine.py:184 | a row is kept exactly when its minute is a multiple of 10, i.e. when its timestamp is |
| Cleaner.FilterGrid | WindTurbine.py:184 | only on-grid rows are kept, and every on-grid row is kept with its multiplicity |
| Cleaner.SortByTime | WindTurbine.py:187 | the result is sorted by timestamp and is a permutation of the input |
| Cleaner.RunAveraged | WindTurbine.py:188-194 | at the first row of a run the loop leaves the run's mean when the run has two or more rows, and the row itself otherwise; the other rows of the run are left untouched |
| Cleaner.CloseRun | WindTurbine.py:190-194 | closing a run makes every row before the run's end hold its averaged value, and leaves every later row as it was |
| Cleaner.AverageDuplicates | WindTurbine.py:188-194 | the `start_of_dupes` loop computes, row by row, the averaged rows |
| Cleaner.KeepFirst | WindTurbine.py:195-197 | the kept rows come from the input, cover every timestamp of the input once, and have pairwise distinct timestamps |
| Cleaner.KeepFirstIsFirst | WindTurbine.py:196 | each kept row is the first row of the input with its timestamp |
| Cleaner.KeepFirstStrictlyIncreasing | WindTurbine.py:187-197 | on sorted input the kept rows have strictly increasing timestamps |
| Cleaner.DeduplicateCorrect | WindTurbine.py:188-197 | after averaging and de-duplication the timestamps are strictly increasing, the same as the input's, and each row is the mean of all input rows with its timestamp |
| Cleaner.AlignedDeduplicateIdentity | WindTurbine.py:184-197 | on strictly increasing on-grid rows, the filter, the sort and the de-duplication together leave the rows as they are |
| Cleaner.CleanAligned | WindTurbine.py:181-205 | on a frame that is already on the grid and strictly increasing, `clean_data` only drops the ten columns |
| Cleaner.CleanTwiceFails | WindTurbine.py:181-205 | cleaning a frame that `clean_data` has already cleaned raises a KeyError naming the three blade temperatures, at the first `drop` |
| Cleaner.TenDroppedColumns | WindTurbine.py:199-205 | ten columns are dropped, in four pairwise disjoint groups |
| Cleaner.DropEachCorrect | WindTurbine.py:199-205 | the successive drops succeed exactly when every named column exists; on success exactly those columns go; a failure is a KeyError naming only absent columns; the index is unchanged either way |
| Cleaner.PruneCorrect | WindTurbine.py:199-205 | the four drops of `clean_data` keep the index and its order, and fail with a KeyError exactly when one of the ten columns is missing |
| Cleaner.CleanUniform | WindTurbine.py:181-205 | every row of the cleaned frame has a cell for each of its columns |
| Cleaner.CleanOrdered | WindTurbine.py:181-197 | the cleaned frame has strictly increasing, on-grid timestamps, and they are exactly the input's on-grid timestamps |
| Cleaner.CleanFails | WindTurbine.py:199-205 | `clean_data` raises exactly when one of the ten columns is missing, and then raises a KeyError naming missing columns |
| Cleaner.CleanContents | WindTurbine.py:181-205 | on success the columns are the input's minus the ten, and each row is the mean of the input rows with that timestamp, minus the ten columns |
| Features.DeriveRowKeeps | WindTurbine.py:210-348 | a feature that no later assignment names keeps the value it had |
| Features.LastWriteWins | WindTurbine.py:210-348 | a feature's final value is its last assignment, evaluated on the features built before that assignment |
| Features.AssignColumn | WindTurbine.py:215-348 | one column assignment succeeds exactly when every column it reads exists, and then adds its column on the same index; otherwise it raises the KeyError of the formula's missing columns |
| Features.MissingIs | WindTurbine.py:215-348 | a formula raises exactly when it reads an absent column, and its KeyError names only absent columns |
| Features.DifferenceKeyError | WindTurbine.py:245-346 | a difference raises on one column at most: the left operand when it is absent, and the right operand only when the left one is present |
| Features.FeatureAssignmentsWellFormed | WindTurbine.py:215-240 | every average reads at least one column |
| Features.FeatureAssignmentsDefinedBeforeUse | WindTurbine.py:278-328 | every derived feature a difference reads is assigned before it |
| Features.AssignColumnsRowwise | WindTurbine.py:210-348 | assigning whole columns gives, in each row, what assigning that row's cells alone gives, and adds exactly the assigned names |
| Features.AssignColumnsFails | WindTurbine.py:210-348 | the assignments raise exactly when a SCADA column they read is missing, with a KeyError naming missing columns |
| Features.NewFeaturesCorrect | WindTurbine.py:210-348 | `create_new_features` keeps the index, raises exactly when a SCADA column it reads is missing, and otherwise makes exactly the assigned features, each row derived from its own SCADA row |
| Features.AvailablePowerLastWins | WindTurbine.py:263-265 | `Diff_P_wind_P_technical` ends as the power available from wind minus the power available for force-external reasons |
| Features.PowerVsAvailableLastWins | WindTurbine.py:271-274 | `Diff_avg_Power_P_wind` ends as the average power minus the power available for force-external reasons |
| Features.AverageOfTwo | WindTurbine.py:228-240 | a two-column average is half the sum of the two cells |
| Features.NacelleAverageValue | WindTurbine.py:239-240 | `Avg_nacelle_ambient_temp` is the mean of the two nacelle ambient temperatures |
| Features.NacelleAmbientLastWins | WindTurbine.py:327-328 | `Diff_avg_nacelle_ambient_temp` ends as the second nacelle ambient temperature minus their mean, i.e. half their difference |
| Window.NamesDistinct | WindTurbine.py:370-383 | no mean name equals a deviation name, and each family of names is injective |
| Window.StdNotMean | WindTurbine.py:373-386 | no deviation column collides with a mean column when the two frames are put side by side |
| Window.InWindowMembers | WindTurbine.py:364-379 | the window of `t` holds exactly the rows stamped from two hours before `t` to `t`, both ends included |
| Window.FullWindowTicks | WindTurbine.py:364 | on strictly increasing grid timestamps, the window of a grid time holds 13 rows exactly when that time and each of the twelve grid times before it have a row |
| Window.MeanWrittenIffUnbroken | WindTurbine.py:363-365 | on a frame as `clean_data` leaves it, a row's mean feature is written exactly when that row and the twelve grid times before it all have readings |
| Window.MeanCellValue | WindTurbine.py:363-365 | the mean cell is present exactly when the window holds 13 rows, and then it is the column's mean over the window |
| Window.StdCellValue | WindTurbine.py:378-379 | the deviation cell is always written, as the spread of the column's values in the window |
| Window.WindowMeans | WindTurbine.py:362-365 | the first loop writes, for every timestamp, the mean cells of its window |
| Window.WindowStds | WindTurbine.py:377-379 | the second loop writes, for every timestamp, the deviation cells of its window |
| Window.CreateMeanStd | WindTurbine.py:354-386 | the two loops, the renaming and the concatenation compute the stage's frame and error |
| Window.MeanStdCorrect | WindTurbine.py:354-386 | the frame keeps the index; it raises NameError exactly when there are columns but no rows; it succeeds exactly when the last timestamp's window holds 13 rows (or there is no column); a failure leaves no column |
| Window.MeanStdCells | WindTurbine.py:354-386 | when the renaming succeeds, the stage raises nothing, its frame has the `2hr_std_` and `2hr_mean_` names of every column, and in the row of each timestamp a column's `2hr_std_` cell is the spread of its values in that timestamp's window and its `2hr_mean_` cell is that window's mean cell (Window.MeanCellValue) |
| Window.WindowFeaturesCells | WindTurbine.py:354-386 | in each row, every column has a deviation cell from its window and a mean cell that is present exactly for a full 13-row window |
| Lags.DecimalRoundTrip | WindTurbine.py:405 | the decimal string of a lag in minutes reads back as that number |
| Lags.DecimalInjective | WindTurbine.py:405 | distinct lags have distinct decimal strings |
| Lags.LagNameInjective | WindTurbine.py:403-406 | two lag names are equal only for the same column and the same lag |
| Lags.Rename | WindTurbine.py:403-406 | a renamed row has exactly the lag names of the columns |
| Lags.LagNamesCount | WindTurbine.py:403-406 | each lag adds one column per SCADA column |
| Lags.LagColumnsStep | WindTurbine.py:396-408 | the columns after lag n are those after lag n-1 plus the names of lag n |
| Lags.LagColumnsCount | WindTurbine.py:392-408 | the lagged frame has exactly n times as many columns as `scada_data` |
| Lags.ShiftedRowAt | WindTurbine.py:397-400 | the copy shifted by lag i has a row at `t` exactly when there is a reading 10·i minutes before `t`, and that row is the renamed reading |
| Lags.JoinTimes | WindTurbine.py:408 | the inner join keeps exactly the timestamps present in both frames |
| Lags.AddLag | WindTurbine.py:397-408 | one iteration of the loop turns the frame of lags 1..i-1 into the frame of lags 1..i |
| Lags.CreateLagged | WindTurbine.py:392-408 | the loop computes the frame of lags 1..n |
| Lags.LaggedIncreasing | WindTurbine.py:392-408 | the lagged frame keeps the index order, so its timestamps stay strictly increasing |
| Lags.LaggedTimes | WindTurbine.py:392-408 | the lagged frame keeps exactly the timestamps that have a reading 10, 20, …, 10·n minutes earlier |
| Lags.LaggedShape | WindTurbine.py:392-408 | every row of the lagged frame has exactly the lag columns |
| Lags.LaggedCell | WindTurbine.py:392-408 | the lag-j column of a column holds that column's reading 10·j minutes earlier |
| Lags.LaggedCells | WindTurbine.py:392-408 | every kept row holds, for every column and lag, the reading that many lags earlier |
| Labels.LabelsAfter | WindTurbine.py:420-430 | there is one label per index timestamp after any number of processed status rows |
| Labels.MaskedStep | WindTurbine.py:424-430 | the mask assignment of a tracked status row writes its code over exactly the timestamps it covers |
| Labels.CreateLabels | WindTurbine.py:417-430 | the loop over the status log computes the labels |
| Labels.IdleRow | WindTurbine.py:424-430 | a row with an untracked code, or whose next row is no later, changes no label |
| Labels.LabelsAfterAt | WindTurbine.py:420-430 | after some rows a label is 0 exactly when none of them covers its timestamp; otherwise it is the code of the last row that covers it |
| Labels.LabelCodes | WindTurbine.py:419-430 | every label is 0 or one of the five tracked codes |
| Labels.UnlabelledIffUncovered | WindTurbine.py:420-430 | a timestamp is labelled 0 exactly when no status row covers it |
| Labels.LastCoverWins | WindTurbine.py:422-430 | a timestamp covered by several rows carries the code of the last of them |
| Labels.CoveredOnce | WindTurbine.py:425-430 | in a log in time order, a timestamp covered by one row is covered by no later row |
| Labels.OrderedLabel | WindTurbine.py:422-430 | in a log in time order, a covered timestamp carries the code of the row that covers it |
| Labels.LastRowOpenEnded | WindTurbine.py:426-427 | a tracked last row labels every later timestamp with its code |

## Left out

- `import_data`, `import_from_pickle_files` and the demo script are not modelled. They read CSV and pickle files, convert dates and add inverter statistics: this is file I/O. The constructor takes the loaded SCADA frame and status log as arguments.
- Timestamps are whole minutes since an hour boundary, so a reading's minute of the hour is the timestamp modulo 60. Seconds and time zones are not modelled.
- Cells are exact real numbers, not 32- or 64-bit floats. Rounding is not modelled.
- Missing cells (`NaN`) are not modelled. Every stage requires each row to hold a cell for every column of its frame, and pandas' skipping of `NaN` in means is not modelled.
- Window.CreateMeanStd: the sample standard deviation is a square root over floats. It is the parameter `spread`, so the model states which values each deviation is taken over but not the formula.
- Cleaner.SortByTime: pandas' default sort may order rows with equal timestamps differently. The model uses a stable sort. Every run of equal timestamps is averaged into one row, and that mean does not depend on the order (Tables.MeanRowPermutation).
- Frames keep their columns as a set, so the order of columns is not modelled. This includes the deviation-before-mean order of `mean_std` and the column order of the lagged frame.
- Labels.CreateLabels: the index comes in as a parameter. The source labels the index of `derived_features`, which is built outside the stages modelled here: in `import_from_pickle_files` and in the driver script (`WindTurbine_demo.py`), as an inner join of the derived frames.
- Lags.LaggedCells: the per-cell statements need strictly increasing timestamps. `clean_data` establishes these (Cleaner.CleanOrdered). On an index with duplicate labels, pandas' join behaves differently, and the model does not follow it there.
- Lags.LagColumnsCount: the lagged frame holds only generated names, and these are pairwise distinct whatever the SCADA column names are (Lags.LagNameInjective). A SCADA column whose name already looks like a lag name could clash only when the driver script (`WindTurbine_demo.py`) joins the lagged frame with `scada_data`, which is outside the stages modelled here.
- Window.InWindowMembers: the window is the set of rows with timestamps in the closed range. This matches `loc` label slicing on a sorted, unique index, which `clean_data` provides. Slicing on an unsorted index is not modelled.
- `temp_lagged_features`, which `create_lagged_features` leaves behind as an attribute, and the warning and RTU status logs, which no modelled stage reads, are not modelled.
