/**
 * `EnerconWindTurbineData`: the object that holds the turbine's frames and
 * whose methods replace them one stage at a time. Each method updates its own
 * field in place and leaves the others as they were; a stage that raises
 * reports the error and leaves its field as the source leaves it at the point
 * of the exception.
 */
module Turbine {
  import opened Tables
  import Cleaner
  import Features
  import Window
  import Lags
  import Labels

  class EnerconWindTurbineData {
    /** `scada_data`: the 10-minute SCADA readings, indexed by time. */
    var scadaData: Table<real>
    /** `status_data_wec`: the turbine's status log. */
    var statusDataWec: seq<Labels.StatusRow>
    /** `new_features`: the per-row averages and differences. */
    var newFeatures: Table<real>
    /** `mean_std`: the 2-hour window deviations and means. */
    var meanStd: Table<Option<real>>
    /** `lagged_features`: the readings 10, 20, ... minutes earlier. */
    var laggedFeatures: Table<real>
    /** `ylabels`: the fault label of each timestamp of the feature index. */
    var ylabels: seq<int>

    /** Every row of `scada_data` has a cell for each of its columns. */
    predicate Valid()
      reads this
    {
      Uniform(scadaData)
    }

    /** The object as `import_data` leaves it: the two frames loaded, every derived frame empty. */
    constructor (scada: Table<real>, status: seq<Labels.StatusRow>)
      requires Uniform(scada)
      ensures Valid()
      ensures scadaData == scada && statusDataWec == status
      ensures newFeatures == Table({}, []) && meanStd == Table({}, []) && laggedFeatures == Table({}, [])
      ensures ylabels == []
    {
      scadaData := scada;
      statusDataWec := status;
      newFeatures := Table({}, []);
      meanStd := Table({}, []);
      laggedFeatures := Table({}, []);
      ylabels := [];
    }

    /**
     * `clean_data`: keep the on-grid rows, sort them, average each run of equal
     * timestamps into its first row, keep the first row of each timestamp, and
     * drop the ten faulty columns.
     */
    method CleanData() returns (err: Option<PipelineError>)
      modifies this
      requires Valid()
      ensures Valid()
      ensures (scadaData, err) == Cleaner.Clean(old(scadaData))
      ensures statusDataWec == old(statusDataWec) && newFeatures == old(newFeatures)
      ensures meanStd == old(meanStd) && laggedFeatures == old(laggedFeatures) && ylabels == old(ylabels)
    {
      var t := scadaData;
      Cleaner.CleanUniform(t);
      Cleaner.AlignedCovers(t.entries, t.columns);
      var aligned := Cleaner.Aligned(t.entries);
      var averaged := Cleaner.AverageDuplicates(aligned, t.columns);
      var deduplicated := Table(t.columns, Cleaner.KeepFirst(averaged, {}));
      var pruned := Cleaner.Prune(deduplicated);
      scadaData := pruned.0;
      err := pruned.1;
    }

    /** `create_new_features`: the expert features of each row of `scada_data`. */
    method CreateNewFeatures() returns (err: Option<PipelineError>)
      modifies this
      requires Valid()
      ensures Valid()
      ensures (newFeatures, err) == Features.NewFeatures(scadaData)
      ensures scadaData == old(scadaData) && statusDataWec == old(statusDataWec)
      ensures meanStd == old(meanStd) && laggedFeatures == old(laggedFeatures) && ylabels == old(ylabels)
    {
      var result := Features.NewFeatures(scadaData);
      newFeatures := result.0;
      err := result.1;
    }

    /** `create_mean_std_features`, with the deviation formula given as `spread`. */
    method CreateMeanStdFeatures(spread: seq<real> -> Option<real>) returns (err: Option<PipelineError>)
      modifies this
      requires Valid()
      ensures Valid()
      ensures (meanStd, err) == Window.MeanStd(scadaData, spread)
      ensures scadaData == old(scadaData) && statusDataWec == old(statusDataWec)
      ensures newFeatures == old(newFeatures) && laggedFeatures == old(laggedFeatures) && ylabels == old(ylabels)
    {
      var frame, e := Window.CreateMeanStd(scadaData, spread);
      meanStd := frame;
      err := e;
    }

    /** `create_lagged_features(n)`: the frame of lags 1..n of every column of `scada_data`. */
    method CreateLaggedFeatures(n: int)
      modifies this
      requires Valid()
      ensures Valid()
      ensures laggedFeatures == Lags.Lagged(scadaData, n)
      ensures scadaData == old(scadaData) && statusDataWec == old(statusDataWec)
      ensures newFeatures == old(newFeatures) && meanStd == old(meanStd) && ylabels == old(ylabels)
    {
      laggedFeatures := Lags.CreateLagged(scadaData, n);
    }

    /** `create_labels`, on the index of the derived feature frame. */
    method CreateLabels(index: seq<Time>)
      modifies this
      requires Valid()
      ensures Valid()
      ensures ylabels == Labels.Labels(index, statusDataWec) && |ylabels| == |index|
      ensures scadaData == old(scadaData) && statusDataWec == old(statusDataWec)
      ensures newFeatures == old(newFeatures) && meanStd == old(meanStd) && laggedFeatures == old(laggedFeatures)
    {
      ylabels := Labels.CreateLabels(index, statusDataWec);
    }
  }
}
