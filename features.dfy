/**
 * The Feature Deriver (`create_new_features`): a fresh frame on the cleaned
 * index, filled by a fixed sequence of column assignments. Each assignment is
 * either the mean of a list of base columns or the difference of two operands,
 * an operand being a base column or a column assigned earlier. Some names are
 * assigned more than once; the later assignment replaces the earlier one.
 */
module Features {
  import opened Tables

  datatype Operand = Base(col: Column) | Derived(col: Column)

  datatype Formula =
    | Average(cols: seq<Column>)        // scada_data[cols].mean(axis=1)
    | Difference(lhs: Operand, rhs: Operand)

  datatype Assignment = Assign(name: Column, formula: Formula)

  // ---------------------------------------------------------------------------
  // The assignments, section by section, in the order they are made
  // ---------------------------------------------------------------------------

  const Averages: seq<Assignment> := [
    Assign("Avg_Sys_1_inverters_cabinet_temp", Average([
      "CS101__Sys_1_inverter_1_cabinet_temp", "CS101__Sys_1_inverter_2_cabinet_temp",
      "CS101__Sys_1_inverter_3_cabinet_temp", "CS101__Sys_1_inverter_4_cabinet_temp",
      "CS101__Sys_1_inverter_5_cabinet_temp", "CS101__Sys_1_inverter_6_cabinet_temp",
      "CS101__Sys_1_inverter_7_cabinet_temp"])),
    Assign("Avg_Sys_2_inverters_cabinet_temp", Average([
      "CS101__Sys_2_inverter_1_cabinet_temp", "CS101__Sys_2_inverter_2_cabinet_temp",
      "CS101__Sys_2_inverter_3_cabinet_temp", "CS101__Sys_2_inverter_4_cabinet_temp"])),
    Assign("Avg_bearing_temp", Average(["CS101__Front_bearing_temp", "CS101__Rear_bearing_temp"])),
    Assign("Avg_pitch_cabinet_blade_temp", Average([
      "CS101__Pitch_cabinet_blade_A_temp", "CS101__Pitch_cabinet_blade_B_temp",
      "CS101__Pitch_cabinet_blade_C_temp"])),
    Assign("Avg_rotor_temp", Average(["CS101__Rotor_temp_1", "CS101__Rotor_temp_2"])),
    Assign("Avg_stator_temp", Average(["CS101__Stator_temp_1", "CS101__Stator_temp_2"])),
    Assign("Avg_nacelle_ambient_temp", Average(["CS101__Nacelle_ambient_temp_1", "CS101__Nacelle_ambient_temp_2"]))
  ]

  function BaseDiff(name: Column, a: Column, b: Column): Assignment
  {
    Assign(name, Difference(Base(a), Base(b)))
  }

  function DerivedDiff(name: Column, a: Column, avg: Column): Assignment
  {
    Assign(name, Difference(Base(a), Derived(avg)))
  }

  const MaxMinDiffs: seq<Assignment> := [
    BaseDiff("Dif_max_min_windspeed", "WEC__max_windspeed", "WEC__min_windspeed"),
    BaseDiff("Dif_max_min_rotation", "WEC_max_Rotation", "WEC_min_Rotation"),
    BaseDiff("Dif_max_min_Power", "WEC_max_Power", "WEC_min_Power"),
    BaseDiff("Dif_max_min_reactive_Power", "WEC_max_reactive_Power", "WEC_min_reactive_Power")
  ]

  const MaxAvgDiffs: seq<Assignment> := [
    BaseDiff("Dif_max_avg_windspeed", "WEC__max_windspeed", "WEC_ava_windspeed"),
    BaseDiff("Dif_max_avg_rotation", "WEC_max_Rotation", "WEC_ava_Rotation"),
    BaseDiff("Dif_max_avg_Power", "WEC_max_Power", "WEC_ava_Power"),
    BaseDiff("Dif_max_avg_reactive_Power", "WEC_max_reactive_Power", "WEC_ava_reactive_Power")
  ]

  const AvgMinDiffs: seq<Assignment> := [
    BaseDiff("Dif_avg_min_windspeed", "WEC_ava_windspeed", "WEC__min_windspeed"),
    BaseDiff("Dif_avg_min_rotation", "WEC_ava_Rotation", "WEC_min_Rotation"),
    BaseDiff("Dif_avg_min_Power", "WEC_ava_Power", "WEC_min_Power"),
    BaseDiff("Dif_avg_min_reactive_Power", "WEC_ava_reactive_Power", "WEC_min_reactive_Power")
  ]

  const AvailablePowerDiffs: seq<Assignment> := [
    BaseDiff("Diff_P_wind_P_technical", "WEC_ava_available_P_from_wind", "WEC_ava_available_P_technical_reasons"),
    BaseDiff("Diff_P_wind_P_majeure", "WEC_ava_available_P_from_wind", "WEC_ava_Available_P_force_majeure_reasons"),
    BaseDiff("Diff_P_wind_P_technical", "WEC_ava_available_P_from_wind", "WEC_ava_Available_P_force_external_reasons"),
    BaseDiff("Diff_P_technical_P_majeure", "WEC_ava_available_P_technical_reasons", "WEC_ava_Available_P_force_majeure_reasons"),
    BaseDiff("Diff_P_technical_P_external", "WEC_ava_available_P_technical_reasons", "WEC_ava_Available_P_force_external_reasons"),
    BaseDiff("Diff_P_majeure_P_external", "WEC_ava_Available_P_force_majeure_reasons", "WEC_ava_Available_P_force_external_reasons")
  ]

  const PowerVsAvailableDiffs: seq<Assignment> := [
    BaseDiff("Diff_avg_Power_P_wind", "WEC_ava_Power", "WEC_ava_available_P_from_wind"),
    BaseDiff("Diff_avg_Power_P_wind", "WEC_ava_Power", "WEC_ava_available_P_technical_reasons"),
    BaseDiff("Diff_avg_Power_P_wind", "WEC_ava_Power", "WEC_ava_Available_P_force_majeure_reasons"),
    BaseDiff("Diff_avg_Power_P_wind", "WEC_ava_Power", "WEC_ava_Available_P_force_external_reasons")
  ]

  const InverterDiffs: seq<Assignment> := [
    DerivedDiff("Diff_Avg_Sys_1_inverter_1", "CS101__Sys_1_inverter_1_cabinet_temp", "Avg_Sys_1_inverters_cabinet_temp"),
    DerivedDiff("Diff_Avg_Sys_1_inverter_2", "CS101__Sys_1_inverter_2_cabinet_temp", "Avg_Sys_1_inverters_cabinet_temp"),
    DerivedDiff("Diff_Avg_Sys_1_inverter_3", "CS101__Sys_1_inverter_3_cabinet_temp", "Avg_Sys_1_inverters_cabinet_temp"),
    DerivedDiff("Diff_Avg_Sys_1_inverter_4", "CS101__Sys_1_inverter_4_cabinet_temp", "Avg_Sys_1_inverters_cabinet_temp"),
    DerivedDiff("Diff_Avg_Sys_1_inverter_5", "CS101__Sys_1_inverter_5_cabinet_temp", "Avg_Sys_1_inverters_cabinet_temp"),
    DerivedDiff("Diff_Avg_Sys_1_inverter_6", "CS101__Sys_1_inverter_6_cabinet_temp", "Avg_Sys_1_inverters_cabinet_temp"),
    DerivedDiff("Diff_Avg_Sys_1_inverter_7", "CS101__Sys_1_inverter_7_cabinet_temp", "Avg_Sys_1_inverters_cabinet_temp"),
    DerivedDiff("Diff_Avg_Sys_2_inverter_1", "CS101__Sys_2_inverter_1_cabinet_temp", "Avg_Sys_2_inverters_cabinet_temp"),
    DerivedDiff("Diff_Avg_Sys_2_inverter_2", "CS101__Sys_2_inverter_2_cabinet_temp", "Avg_Sys_2_inverters_cabinet_temp"),
    DerivedDiff("Diff_Avg_Sys_2_inverter_3", "CS101__Sys_2_inverter_3_cabinet_temp", "Avg_Sys_2_inverters_cabinet_temp"),
    DerivedDiff("Diff_Avg_Sys_2_inverter_4", "CS101__Sys_2_inverter_4_cabinet_temp", "Avg_Sys_2_inverters_cabinet_temp")
  ]

  const BearingDiffs: seq<Assignment> := [
    BaseDiff("Diff_font_rear_bearing", "CS101__Front_bearing_temp", "CS101__Rear_bearing_temp"),
    DerivedDiff("Diff_font_avg_bearing", "CS101__Front_bearing_temp", "Avg_bearing_temp"),
    DerivedDiff("Diff_rear_avg_bearing", "CS101__Rear_bearing_temp", "Avg_bearing_temp")
  ]

  const PitchCabinetDiffs: seq<Assignment> := [
    BaseDiff("Diff_cabinet_A_B_temp", "CS101__Pitch_cabinet_blade_A_temp", "CS101__Pitch_cabinet_blade_B_temp"),
    BaseDiff("Diff_cabinet_A_C_temp", "CS101__Pitch_cabinet_blade_A_temp", "CS101__Pitch_cabinet_blade_C_temp"),
    BaseDiff("Diff_cabinet_B_C_temp", "CS101__Pitch_cabinet_blade_B_temp", "CS101__Pitch_cabinet_blade_C_temp"),
    DerivedDiff("Diff_cabinet_A_avg_temp", "CS101__Pitch_cabinet_blade_A_temp", "Avg_pitch_cabinet_blade_temp"),
    DerivedDiff("Diff_cabinet_B_avg_temp", "CS101__Pitch_cabinet_blade_B_temp", "Avg_pitch_cabinet_blade_temp"),
    DerivedDiff("Diff_cabinet_C_avg_temp", "CS101__Pitch_cabinet_blade_C_temp", "Avg_pitch_cabinet_blade_temp")
  ]

  const RotorDiffs: seq<Assignment> := [
    BaseDiff("Diff_rotor_temps", "CS101__Rotor_temp_1", "CS101__Rotor_temp_2"),
    DerivedDiff("Dif_rotor_1_avg_temps", "CS101__Rotor_temp_1", "Avg_rotor_temp"),
    DerivedDiff("Dif_rotor_2_avg_temps", "CS101__Rotor_temp_2", "Avg_rotor_temp")
  ]

  const StatorDiffs: seq<Assignment> := [
    BaseDiff("Diff_stator_temps", "CS101__Stator_temp_1", "CS101__Stator_temp_2"),
    DerivedDiff("Diff_stator_1_avg_temps", "CS101__Stator_temp_1", "Avg_stator_temp"),
    DerivedDiff("Diff_stator_2_avg_temps", "CS101__Stator_temp_2", "Avg_stator_temp")
  ]

  const NacelleAmbientDiffs: seq<Assignment> := [
    BaseDiff("Diff_nacelle_ambient_temps", "CS101__Nacelle_ambient_temp_1", "CS101__Nacelle_ambient_temp_2"),
    DerivedDiff("Diff_avg_nacelle_ambient_temp", "CS101__Nacelle_ambient_temp_1", "Avg_nacelle_ambient_temp"),
    DerivedDiff("Diff_avg_nacelle_ambient_temp", "CS101__Nacelle_ambient_temp_2", "Avg_nacelle_ambient_temp")
  ]

  const NacelleCabinetDiffs: seq<Assignment> := [
    BaseDiff("Diff_nacelle_cabinet_temp", "CS101__Nacelle_temp", "CS101__Nacelle_cabinet_temp")
  ]

  const AmbientDiffs: seq<Assignment> := [
    BaseDiff("Diff_ambient_nacelle_temp", "CS101__Ambient_temp", "CS101__Nacelle_temp"),
    BaseDiff("Diff_ambient_nacelle_cabinet_temp", "CS101__Ambient_temp", "CS101__Nacelle_cabinet_temp"),
    BaseDiff("Diff_ambient_rectifier_temp", "CS101__Ambient_temp", "CS101__Rectifier_cabinet_temp"),
    BaseDiff("Diff_ambient_main_carrier_temp", "CS101__Ambient_temp", "CS101__Main_carrier_temp"),
    BaseDiff("Diff_ambient_yaw_inverter_cabinet_temp", "CS101__Ambient_temp", "CS101__Yaw_inverter_cabinet_temp"),
    BaseDiff("Diff_ambient_fan_inverter_cabinet_temp", "CS101__Ambient_temp", "CS101__Fan_inverter_cabinet_temp"),
    BaseDiff("Diff_ambient_tower_temp", "CS101__Ambient_temp", "CS101__Tower_temp"),
    BaseDiff("Diff_ambient_control_cabinet_temp", "CS101__Ambient_temp", "CS101__Control_cabinet_temp"),
    BaseDiff("Diff_ambient_transformer_temp", "CS101__Ambient_temp", "CS101__Transformer_temp")
  ]

  const GeneratorNacelleDiffs: seq<Assignment> := [
    BaseDiff("Diff_nacelle_stator_1_temp", "CS101__Nacelle_temp", "CS101__Stator_temp_1"),
    BaseDiff("Diff_nacelle_stator_2_temp", "CS101__Nacelle_temp", "CS101__Stator_temp_2"),
    BaseDiff("Diff_nacelle_rotor_1_temp", "CS101__Nacelle_temp", "CS101__Rotor_temp_1"),
    BaseDiff("Diff_nacelle_rotor_2_temp", "CS101__Nacelle_temp", "CS101__Rotor_temp_2")
  ]

  /** Everything up to and including the power sections (lines 215-274). */
  const PowerSections: seq<Assignment> :=
    Averages + MaxMinDiffs + MaxAvgDiffs + AvgMinDiffs + AvailablePowerDiffs + PowerVsAvailableDiffs

  /** The temperature sections (lines 278-348). */
  const TemperatureSections: seq<Assignment> :=
    InverterDiffs + BearingDiffs + PitchCabinetDiffs + RotorDiffs + StatorDiffs +
    NacelleAmbientDiffs + NacelleCabinetDiffs + AmbientDiffs + GeneratorNacelleDiffs

  const FeatureAssignments: seq<Assignment> := PowerSections + TemperatureSections

  // ---------------------------------------------------------------------------
  // Row-wise meaning: one row of the base frame in, one row of features out
  // ---------------------------------------------------------------------------

  function SumOf(row: map<Column, real>, cols: seq<Column>): real
    requires forall i :: 0 <= i < |cols| ==> cols[i] in row
  {
    if cols == [] then 0.0 else row[cols[0]] + SumOf(row, cols[1..])
  }

  function OperandValue(o: Operand, base: map<Column, real>, derived: map<Column, real>): Option<real>
  {
    match o
    case Base(c) => if c in base then Some(base[c]) else None
    case Derived(c) => if c in derived then Some(derived[c]) else None
  }

  /** The value of a formula on one row, or None when a column it reads is missing. */
  function Eval(f: Formula, base: map<Column, real>, derived: map<Column, real>): Option<real>
  {
    match f
    case Average(cols) =>
      if |cols| > 0 && forall i :: 0 <= i < |cols| ==> cols[i] in base
      then Some(SumOf(base, cols) / (|cols| as real)) else None
    case Difference(l, r) =>
      match (OperandValue(l, base, derived), OperandValue(r, base, derived))
      case (Some(x), Some(y)) => Some(x - y)
      case _ => None
  }

  /** The features of one base row: the assignments made in order into `acc`. */
  function DeriveRow(base: map<Column, real>, assigns: seq<Assignment>, acc: map<Column, real>): Option<map<Column, real>>
    decreases |assigns|
  {
    if assigns == [] then Some(acc)
    else
      match Eval(assigns[0].formula, base, acc)
      case None => None
      case Some(v) => DeriveRow(base, assigns[1..], acc[assigns[0].name := v])
  }

  function NamesOf(assigns: seq<Assignment>): set<Column>
  {
    set i | 0 <= i < |assigns| :: assigns[i].name
  }

  /** Running two blocks of assignments is running the second on the result of the first. */
  lemma {:induction false} DeriveRowAppend(base: map<Column, real>, a: seq<Assignment>, b: seq<Assignment>, acc: map<Column, real>)
    ensures DeriveRow(base, a + b, acc) ==
              match DeriveRow(base, a, acc)
              case None => None
              case Some(m) => DeriveRow(base, b, m)
    decreases |a|
  {
    if a == [] {
      assert a + b == b;
    } else {
      assert (a + b)[0] == a[0];
      assert (a + b)[1..] == a[1..] + b;
      match Eval(a[0].formula, base, acc)
      case None =>
      case Some(v) => DeriveRowAppend(base, a[1..], b, acc[a[0].name := v]);
    }
  }

  /** A name that a block does not assign keeps the value it had before the block. */
  lemma {:induction false} DeriveRowKeeps(base: map<Column, real>, assigns: seq<Assignment>, acc: map<Column, real>, name: Column)
    requires name !in NamesOf(assigns) && DeriveRow(base, assigns, acc).Some?
    ensures name in DeriveRow(base, assigns, acc).value <==> name in acc
    ensures name in acc ==> DeriveRow(base, assigns, acc).value[name] == acc[name]
    decreases |assigns|
  {
    if assigns != [] {
      assert assigns[0].name in NamesOf(assigns);
      var v := Eval(assigns[0].formula, base, acc).value;
      assert NamesOf(assigns[1..]) <= NamesOf(assigns) by {
        forall x | x in NamesOf(assigns[1..]) ensures x in NamesOf(assigns) {
          var i :| 0 <= i < |assigns[1..]| && assigns[1..][i].name == x;
          assert assigns[i + 1].name == x;
        }
      }
      DeriveRowKeeps(base, assigns[1..], acc[assigns[0].name := v], name);
    }
  }

  /**
   * Last write wins: when the `k`-th assignment is the last one to `name`,
   * the feature holds what that assignment computed.
   */
  lemma LastWriteWins(base: map<Column, real>, assigns: seq<Assignment>, acc: map<Column, real>, k: nat)
    requires k < |assigns| && assigns[k].name !in NamesOf(assigns[k + 1..])
    requires DeriveRow(base, assigns, acc).Some?
    ensures DeriveRow(base, assigns[..k], acc).Some?
    ensures Eval(assigns[k].formula, base, DeriveRow(base, assigns[..k], acc).value).Some?
    ensures assigns[k].name in DeriveRow(base, assigns, acc).value
    ensures DeriveRow(base, assigns, acc).value[assigns[k].name] ==
              Eval(assigns[k].formula, base, DeriveRow(base, assigns[..k], acc).value).value
  {
    var name := assigns[k].name;
    assert assigns == assigns[..k] + ([assigns[k]] + assigns[k + 1..]);
    DeriveRowAppend(base, assigns[..k], [assigns[k]] + assigns[k + 1..], acc);
    var before := DeriveRow(base, assigns[..k], acc).value;
    var v := Eval(assigns[k].formula, base, before).value;
    assert ([assigns[k]] + assigns[k + 1..])[1..] == assigns[k + 1..];
    DeriveRowKeeps(base, assigns[k + 1..], before[name := v], name);
  }

  // ---------------------------------------------------------------------------
  // Column-wise meaning: how pandas runs the assignments on the whole frame
  // ---------------------------------------------------------------------------

  function OperandNeeds(o: Operand, baseCols: set<Column>, derivedCols: set<Column>): set<Column>
  {
    match o
    case Base(c) => if c in baseCols then {} else {c}
    case Derived(c) => if c in derivedCols then {} else {c}
  }

  /**
   * The columns the KeyError of a formula names: for an average, every listed
   * column the frame lacks (the list is looked up at once); for a difference,
   * the left operand when it is absent, since it is looked up first, and
   * otherwise the right operand when that one is absent.
   */
  function Missing(f: Formula, baseCols: set<Column>, derivedCols: set<Column>): set<Column>
  {
    match f
    case Average(cols) => set i | 0 <= i < |cols| && cols[i] !in baseCols :: cols[i]
    case Difference(l, r) =>
      var left := OperandNeeds(l, baseCols, derivedCols);
      if left != {} then left else OperandNeeds(r, baseCols, derivedCols)
  }

  /** An average over no column at all is never written. */
  predicate WellFormed(assigns: seq<Assignment>)
  {
    forall i :: 0 <= i < |assigns| ==> (assigns[i].formula.Average? ==> |assigns[i].formula.cols| > 0)
  }

  /** Two frames on the same index, row by row. */
  predicate SameIndex(a: Table<real>, b: Table<real>)
  {
    |a.entries| == |b.entries| && forall k :: 0 <= k < |a.entries| ==> a.entries[k].time == b.entries[k].time
  }

  /** `new_features[name] = <formula over scada_data and new_features>`, for the whole column at once. */
  function AssignColumn(scada: Table<real>, nf: Table<real>, a: Assignment): (r: Result<Table<real>>)
    requires Uniform(scada) && Uniform(nf) && SameIndex(scada, nf)
    requires a.formula.Average? ==> |a.formula.cols| > 0
    ensures r.Ok? <==> Missing(a.formula, scada.columns, nf.columns) == {}
    ensures r.Err? ==> r.error == KeyError(Missing(a.formula, scada.columns, nf.columns))
    ensures r.Ok? ==> Uniform(r.value) && SameIndex(scada, r.value) && r.value.columns == nf.columns + {a.name}
  {
    var missing := Missing(a.formula, scada.columns, nf.columns);
    if missing != {} then Err(KeyError(missing))
    else
      assert forall k :: 0 <= k < |nf.entries| ==>
               Eval(a.formula, scada.entries[k].row, nf.entries[k].row).Some? by {
        forall k | 0 <= k < |nf.entries| ensures Eval(a.formula, scada.entries[k].row, nf.entries[k].row).Some? {
          if a.formula.Average? {
            var cols := a.formula.cols;
            forall i | 0 <= i < |cols| ensures cols[i] in scada.entries[k].row {
              assert cols[i] !in missing;
            }
          }
        }
      }
      Ok(Table(nf.columns + {a.name},
               seq(|nf.entries|, k requires 0 <= k < |nf.entries| =>
                 Entry(nf.entries[k].time,
                       nf.entries[k].row[a.name := Eval(a.formula, scada.entries[k].row, nf.entries[k].row).value]))))
  }

  /** The assignments made one after the other; the first that raises stops the rest, keeping the columns made so far. */
  function AssignColumns(scada: Table<real>, nf: Table<real>, assigns: seq<Assignment>): (Table<real>, Option<PipelineError>)
    requires Uniform(scada) && Uniform(nf) && SameIndex(scada, nf) && WellFormed(assigns)
    decreases |assigns|
  {
    if assigns == [] then (nf, None)
    else
      match AssignColumn(scada, nf, assigns[0])
      case Err(e) => (nf, Some(e))
      case Ok(nf') => AssignColumns(scada, nf', assigns[1..])
  }

  /** `create_new_features` as a function of `scada_data`: the new frame and the error raised, if any. */
  function NewFeatures(scada: Table<real>): (Table<real>, Option<PipelineError>)
    requires Uniform(scada)
  {
    FeatureAssignmentsWellFormed();
    AssignColumns(scada, IndexFrame(scada.entries), FeatureAssignments)
  }

  lemma FeatureAssignmentsWellFormed()
    ensures WellFormed(FeatureAssignments)
  {
    PowerSectionsReadNothing();
    TemperatureSectionsReadAverages();
    WellFormedAppend(PowerSections, TemperatureSections);
  }

  lemma WellFormedAppend(a: seq<Assignment>, b: seq<Assignment>)
    requires WellFormed(a) && WellFormed(b)
    ensures WellFormed(a + b)
  {
    forall i | 0 <= i < |a + b| ensures (a + b)[i].formula.Average? ==> |(a + b)[i].formula.cols| > 0 {
      if i >= |a| { assert (a + b)[i] == b[i - |a|]; }
    }
  }

  // ---------------------------------------------------------------------------
  // Which columns a formula reads, and when an assignment raises
  // ---------------------------------------------------------------------------

  function OperandBase(o: Operand): set<Column>
  {
    if o.Base? then {o.col} else {}
  }

  function OperandDerived(o: Operand): set<Column>
  {
    if o.Derived? then {o.col} else {}
  }

  /** The base columns a formula reads. */
  function FormulaBase(f: Formula): set<Column>
  {
    match f
    case Average(cols) => set i | 0 <= i < |cols| :: cols[i]
    case Difference(l, r) => OperandBase(l) + OperandBase(r)
  }

  /** The feature columns a formula reads. */
  function FormulaDerived(f: Formula): set<Column>
  {
    match f
    case Average(_) => {}
    case Difference(l, r) => OperandDerived(l) + OperandDerived(r)
  }

  /** Every base column that some assignment reads. */
  function BaseColumnsOf(assigns: seq<Assignment>): set<Column>
    decreases |assigns|
  {
    if assigns == [] then {} else FormulaBase(assigns[0].formula) + BaseColumnsOf(assigns[1..])
  }

  /** Each feature column an assignment reads exists by then: in `defined` or made by an earlier assignment. */
  predicate DefinedBeforeUse(assigns: seq<Assignment>, defined: set<Column>)
    decreases |assigns|
  {
    assigns == [] ||
    (FormulaDerived(assigns[0].formula) <= defined && DefinedBeforeUse(assigns[1..], defined + {assigns[0].name}))
  }

  /** A formula raises exactly when it reads an absent column, and its KeyError names only absent columns. */
  lemma MissingIs(f: Formula, baseCols: set<Column>, derivedCols: set<Column>)
    ensures Missing(f, baseCols, derivedCols) <= (FormulaBase(f) - baseCols) + (FormulaDerived(f) - derivedCols)
    ensures Missing(f, baseCols, derivedCols) == {} <==> FormulaBase(f) <= baseCols && FormulaDerived(f) <= derivedCols
  {
    match f
    case Average(cols) =>
      forall x | x in FormulaBase(f) - baseCols ensures x in Missing(f, baseCols, derivedCols) {
        var i :| 0 <= i < |cols| && cols[i] == x;
      }
      if Missing(f, baseCols, derivedCols) == {} {
        forall x | x in FormulaBase(f) ensures x in baseCols {
          assert x !in Missing(f, baseCols, derivedCols);
        }
      }
    case Difference(l, r) =>
  }

  /**
   * A difference whose operands are both absent raises on the left one alone:
   * its KeyError names the left operand when that is absent, and the right
   * operand only when the left one is present.
   */
  lemma DifferenceKeyError(l: Operand, r: Operand, baseCols: set<Column>, derivedCols: set<Column>)
    ensures |Missing(Difference(l, r), baseCols, derivedCols)| <= 1
    ensures OperandNeeds(l, baseCols, derivedCols) != {} ==>
              Missing(Difference(l, r), baseCols, derivedCols) == {l.col}
    ensures OperandNeeds(l, baseCols, derivedCols) == {} ==>
              (Missing(Difference(l, r), baseCols, derivedCols) != {} <==> OperandNeeds(r, baseCols, derivedCols) != {}) &&
              (Missing(Difference(l, r), baseCols, derivedCols) != {} ==>
                 Missing(Difference(l, r), baseCols, derivedCols) == {r.col})
  {
  }

  /** A formula has a value on a row exactly when every column it reads is there. */
  lemma EvalDefined(f: Formula, base: map<Column, real>, derived: map<Column, real>)
    requires f.Average? ==> |f.cols| > 0
    ensures Eval(f, base, derived).Some? <==> FormulaBase(f) <= base.Keys && FormulaDerived(f) <= derived.Keys
  {
    match f
    case Average(cols) =>
      if FormulaBase(f) <= base.Keys {
        forall i | 0 <= i < |cols| ensures cols[i] in base {
          assert cols[i] in FormulaBase(f);
        }
      }
    case Difference(l, r) =>
  }

  lemma NamesOfCons(assigns: seq<Assignment>)
    requires assigns != []
    ensures NamesOf(assigns) == {assigns[0].name} + NamesOf(assigns[1..])
  {
    forall x | x in NamesOf(assigns) ensures x in {assigns[0].name} + NamesOf(assigns[1..]) {
      var i :| 0 <= i < |assigns| && assigns[i].name == x;
      if i > 0 { assert assigns[1..][i - 1].name == x; }
    }
    forall x | x in NamesOf(assigns[1..]) ensures x in NamesOf(assigns) {
      var i :| 0 <= i < |assigns[1..]| && assigns[1..][i].name == x;
      assert assigns[i + 1].name == x;
    }
  }

  lemma WellFormedTail(assigns: seq<Assignment>)
    requires assigns != [] && WellFormed(assigns)
    ensures WellFormed(assigns[1..]) && (assigns[0].formula.Average? ==> |assigns[0].formula.cols| > 0)
  {
    forall i | 0 <= i < |assigns[1..]| ensures assigns[1..][i].formula.Average? ==> |assigns[1..][i].formula.cols| > 0 {
      assert assigns[1..][i] == assigns[i + 1];
    }
  }

  /**
   * On one row, with every feature read defined before its use, the
   * assignments all succeed exactly when the row has every base column read,
   * and then the row's features are the initial ones plus one per name assigned.
   */
  lemma {:induction false} DeriveRowDefined(base: map<Column, real>, assigns: seq<Assignment>, acc: map<Column, real>)
    requires WellFormed(assigns) && DefinedBeforeUse(assigns, acc.Keys)
    ensures DeriveRow(base, assigns, acc).Some? <==> BaseColumnsOf(assigns) <= base.Keys
    ensures DeriveRow(base, assigns, acc).Some? ==> DeriveRow(base, assigns, acc).value.Keys == acc.Keys + NamesOf(assigns)
    decreases |assigns|
  {
    if assigns == [] {
      assert NamesOf(assigns) == {};
    } else {
      var a := assigns[0];
      WellFormedTail(assigns);
      EvalDefined(a.formula, base, acc);
      NamesOfCons(assigns);
      match Eval(a.formula, base, acc)
      case None =>
      case Some(v) =>
        assert acc[a.name := v].Keys == acc.Keys + {a.name};
        DeriveRowDefined(base, assigns[1..], acc[a.name := v]);
    }
  }

  /**
   * Column by column, the frame keeps the base index and stays uniform; when
   * no assignment raised, its columns are the initial ones plus every name
   * assigned, and each row is exactly what the row-wise assignments give for
   * that row alone.
   */
  lemma {:induction false} AssignColumnsRowwise(scada: Table<real>, nf: Table<real>, assigns: seq<Assignment>)
    requires Uniform(scada) && Uniform(nf) && SameIndex(scada, nf) && WellFormed(assigns)
    ensures Uniform(AssignColumns(scada, nf, assigns).0) && SameIndex(scada, AssignColumns(scada, nf, assigns).0)
    ensures AssignColumns(scada, nf, assigns).1 == None ==>
              AssignColumns(scada, nf, assigns).0.columns == nf.columns + NamesOf(assigns)
    ensures AssignColumns(scada, nf, assigns).1 == None ==>
              forall k :: 0 <= k < |scada.entries| ==>
                DeriveRow(scada.entries[k].row, assigns, nf.entries[k].row) ==
                Some(AssignColumns(scada, nf, assigns).0.entries[k].row)
    decreases |assigns|
  {
    if assigns == [] {
      assert NamesOf(assigns) == {};
    } else {
      var a := assigns[0];
      WellFormedTail(assigns);
      NamesOfCons(assigns);
      match AssignColumn(scada, nf, a)
      case Err(_) =>
      case Ok(nf') =>
        AssignColumnsRowwise(scada, nf', assigns[1..]);
        forall k | 0 <= k < |scada.entries|
          ensures DeriveRow(scada.entries[k].row, assigns, nf.entries[k].row) ==
                  DeriveRow(scada.entries[k].row, assigns[1..], nf'.entries[k].row)
        {
          MissingIs(a.formula, scada.columns, nf.columns);
          EvalDefined(a.formula, scada.entries[k].row, nf.entries[k].row);
          var v := Eval(a.formula, scada.entries[k].row, nf.entries[k].row);
          assert scada.entries[k].row.Keys == scada.columns && nf.entries[k].row.Keys == nf.columns;
          forall x | x in FormulaBase(a.formula) ensures x in scada.columns {
            assert x !in Missing(a.formula, scada.columns, nf.columns);
          }
          forall x | x in FormulaDerived(a.formula) ensures x in nf.columns {
            assert x !in Missing(a.formula, scada.columns, nf.columns);
          }
          assert v.Some?;
          assert nf'.entries[k] == Entry(nf.entries[k].time, nf.entries[k].row[a.name := v.value]);
        }
    }
  }

  /**
   * With every feature read defined before its use, the assignments raise
   * exactly when the base frame lacks a column some formula reads, and then
   * the KeyError names only such columns.
   */
  lemma {:induction false} AssignColumnsFails(scada: Table<real>, nf: Table<real>, assigns: seq<Assignment>)
    requires Uniform(scada) && Uniform(nf) && SameIndex(scada, nf) && WellFormed(assigns)
    requires DefinedBeforeUse(assigns, nf.columns)
    ensures AssignColumns(scada, nf, assigns).1 == None <==> BaseColumnsOf(assigns) <= scada.columns
    ensures AssignColumns(scada, nf, assigns).1.Some? ==>
              AssignColumns(scada, nf, assigns).1.value.KeyError? &&
              {} != AssignColumns(scada, nf, assigns).1.value.missing <= BaseColumnsOf(assigns) - scada.columns
    decreases |assigns|
  {
    if assigns != [] {
      var a := assigns[0];
      WellFormedTail(assigns);
      MissingIs(a.formula, scada.columns, nf.columns);
      assert BaseColumnsOf(assigns) == FormulaBase(a.formula) + BaseColumnsOf(assigns[1..]);
      match AssignColumn(scada, nf, a)
      case Err(_) =>
      case Ok(nf') =>
        assert AssignColumns(scada, nf, assigns) == AssignColumns(scada, nf', assigns[1..]);
        assert DefinedBeforeUse(assigns[1..], nf'.columns);
        assert FormulaBase(a.formula) <= scada.columns by {
          forall x | x in FormulaBase(a.formula) ensures x in scada.columns {
            assert x !in Missing(a.formula, scada.columns, nf.columns);
          }
        }
        AssignColumnsFails(scada, nf', assigns[1..]);
    }
  }

  // ---------------------------------------------------------------------------
  // The fixed assignment list: reads only what it has made, last write wins
  // ---------------------------------------------------------------------------

  /** Every feature column a block of assignments reads is among `names`. */
  predicate ReadsOnly(assigns: seq<Assignment>, names: set<Column>)
  {
    forall i :: 0 <= i < |assigns| ==> FormulaDerived(assigns[i].formula) <= names
  }

  lemma ReadsOnlyAppend(a: seq<Assignment>, b: seq<Assignment>, names: set<Column>)
    requires ReadsOnly(a, names) && ReadsOnly(b, names)
    ensures ReadsOnly(a + b, names)
  {
    forall i | 0 <= i < |a + b| ensures FormulaDerived((a + b)[i].formula) <= names {
      if i >= |a| { assert (a + b)[i] == b[i - |a|]; }
    }
  }

  lemma {:induction false} ReadsOnlyDefined(assigns: seq<Assignment>, names: set<Column>, defined: set<Column>)
    requires ReadsOnly(assigns, names) && names <= defined
    ensures DefinedBeforeUse(assigns, defined)
    decreases |assigns|
  {
    if assigns != [] {
      assert forall i :: 0 <= i < |assigns[1..]| ==> assigns[1..][i] == assigns[i + 1];
      ReadsOnlyDefined(assigns[1..], names, defined + {assigns[0].name});
    }
  }

  lemma {:induction false} DefinedBeforeUseAppend(a: seq<Assignment>, b: seq<Assignment>, defined: set<Column>)
    requires DefinedBeforeUse(a, defined) && DefinedBeforeUse(b, defined + NamesOf(a))
    ensures DefinedBeforeUse(a + b, defined)
    decreases |a|
  {
    if a == [] {
      assert NamesOf(a) == {};
      assert defined + NamesOf(a) == defined;
      assert a + b == b;
    } else {
      NamesOfCons(a);
      assert (a + b)[0] == a[0];
      assert (a + b)[1..] == a[1..] + b;
      assert defined + {a[0].name} + NamesOf(a[1..]) == defined + NamesOf(a);
      DefinedBeforeUseAppend(a[1..], b, defined + {a[0].name});
    }
  }

  const AverageNames: set<Column> := {
    "Avg_Sys_1_inverters_cabinet_temp", "Avg_Sys_2_inverters_cabinet_temp", "Avg_bearing_temp",
    "Avg_pitch_cabinet_blade_temp", "Avg_rotor_temp", "Avg_stator_temp", "Avg_nacelle_ambient_temp"
  }

  lemma AveragesReadNothing()
    ensures ReadsOnly(Averages, {}) && WellFormed(Averages)
  {
  }

  lemma MaxMinDiffsReadNothing()
    ensures ReadsOnly(MaxMinDiffs, {}) && WellFormed(MaxMinDiffs)
  {
  }

  lemma MaxAvgDiffsReadNothing()
    ensures ReadsOnly(MaxAvgDiffs, {}) && WellFormed(MaxAvgDiffs)
  {
  }

  lemma AvgMinDiffsReadNothing()
    ensures ReadsOnly(AvgMinDiffs, {}) && WellFormed(AvgMinDiffs)
  {
  }

  lemma AvailablePowerDiffsReadNothing()
    ensures ReadsOnly(AvailablePowerDiffs, {}) && WellFormed(AvailablePowerDiffs)
  {
  }

  lemma PowerVsAvailableDiffsReadNothing()
    ensures ReadsOnly(PowerVsAvailableDiffs, {}) && WellFormed(PowerVsAvailableDiffs)
  {
  }

  lemma InverterDiffsReadAverages()
    ensures ReadsOnly(InverterDiffs, AverageNames) && WellFormed(InverterDiffs)
  {
  }

  lemma BearingDiffsReadAverages()
    ensures ReadsOnly(BearingDiffs, AverageNames) && WellFormed(BearingDiffs)
  {
  }

  lemma PitchCabinetDiffsReadAverages()
    ensures ReadsOnly(PitchCabinetDiffs, AverageNames) && WellFormed(PitchCabinetDiffs)
  {
  }

  lemma RotorDiffsReadAverages()
    ensures ReadsOnly(RotorDiffs, AverageNames) && WellFormed(RotorDiffs)
  {
  }

  lemma StatorDiffsReadAverages()
    ensures ReadsOnly(StatorDiffs, AverageNames) && WellFormed(StatorDiffs)
  {
  }

  lemma NacelleAmbientDiffsReadAverages()
    ensures ReadsOnly(NacelleAmbientDiffs, AverageNames) && WellFormed(NacelleAmbientDiffs)
  {
  }

  lemma NacelleCabinetDiffsReadAverages()
    ensures ReadsOnly(NacelleCabinetDiffs, AverageNames) && WellFormed(NacelleCabinetDiffs)
  {
  }

  lemma AmbientDiffsReadAverages()
    ensures ReadsOnly(AmbientDiffs, AverageNames) && WellFormed(AmbientDiffs)
  {
  }

  lemma GeneratorNacelleDiffsReadAverages()
    ensures ReadsOnly(GeneratorNacelleDiffs, AverageNames) && WellFormed(GeneratorNacelleDiffs)
  {
  }

  /** The power sections read no feature. */
  lemma PowerSectionsReadNothing()
    ensures ReadsOnly(PowerSections, {}) && WellFormed(PowerSections)
  {
    AveragesReadNothing();
    MaxMinDiffsReadNothing();
    MaxAvgDiffsReadNothing();
    AvgMinDiffsReadNothing();
    AvailablePowerDiffsReadNothing();
    PowerVsAvailableDiffsReadNothing();
    ReadsOnlyAppend(Averages, MaxMinDiffs, {});
    WellFormedAppend(Averages, MaxMinDiffs);
    ReadsOnlyAppend(Averages + MaxMinDiffs, MaxAvgDiffs, {});
    WellFormedAppend(Averages + MaxMinDiffs, MaxAvgDiffs);
    ReadsOnlyAppend(Averages + MaxMinDiffs + MaxAvgDiffs, AvgMinDiffs, {});
    WellFormedAppend(Averages + MaxMinDiffs + MaxAvgDiffs, AvgMinDiffs);
    ReadsOnlyAppend(Averages + MaxMinDiffs + MaxAvgDiffs + AvgMinDiffs, AvailablePowerDiffs, {});
    WellFormedAppend(Averages + MaxMinDiffs + MaxAvgDiffs + AvgMinDiffs, AvailablePowerDiffs);
    ReadsOnlyAppend(Averages + MaxMinDiffs + MaxAvgDiffs + AvgMinDiffs + AvailablePowerDiffs, PowerVsAvailableDiffs, {});
    WellFormedAppend(Averages + MaxMinDiffs + MaxAvgDiffs + AvgMinDiffs + AvailablePowerDiffs, PowerVsAvailableDiffs);
  }

  /** The temperature sections read only the averages. */
  lemma TemperatureSectionsReadAverages()
    ensures ReadsOnly(TemperatureSections, AverageNames) && WellFormed(TemperatureSections)
  {
    InverterDiffsReadAverages();
    BearingDiffsReadAverages();
    PitchCabinetDiffsReadAverages();
    RotorDiffsReadAverages();
    StatorDiffsReadAverages();
    NacelleAmbientDiffsReadAverages();
    NacelleCabinetDiffsReadAverages();
    AmbientDiffsReadAverages();
    GeneratorNacelleDiffsReadAverages();
    ReadsOnlyAppend(InverterDiffs, BearingDiffs, AverageNames);
    WellFormedAppend(InverterDiffs, BearingDiffs);
    ReadsOnlyAppend(InverterDiffs + BearingDiffs, PitchCabinetDiffs, AverageNames);
    WellFormedAppend(InverterDiffs + BearingDiffs, PitchCabinetDiffs);
    ReadsOnlyAppend(InverterDiffs + BearingDiffs + PitchCabinetDiffs, RotorDiffs, AverageNames);
    WellFormedAppend(InverterDiffs + BearingDiffs + PitchCabinetDiffs, RotorDiffs);
    ReadsOnlyAppend(InverterDiffs + BearingDiffs + PitchCabinetDiffs + RotorDiffs, StatorDiffs, AverageNames);
    WellFormedAppend(InverterDiffs + BearingDiffs + PitchCabinetDiffs + RotorDiffs, StatorDiffs);
    ReadsOnlyAppend(InverterDiffs + BearingDiffs + PitchCabinetDiffs + RotorDiffs + StatorDiffs, NacelleAmbientDiffs, AverageNames);
    WellFormedAppend(InverterDiffs + BearingDiffs + PitchCabinetDiffs + RotorDiffs + StatorDiffs, NacelleAmbientDiffs);
    ReadsOnlyAppend(InverterDiffs + BearingDiffs + PitchCabinetDiffs + RotorDiffs + StatorDiffs + NacelleAmbientDiffs, NacelleCabinetDiffs, AverageNames);
    WellFormedAppend(InverterDiffs + BearingDiffs + PitchCabinetDiffs + RotorDiffs + StatorDiffs + NacelleAmbientDiffs, NacelleCabinetDiffs);
    ReadsOnlyAppend(InverterDiffs + BearingDiffs + PitchCabinetDiffs + RotorDiffs + StatorDiffs + NacelleAmbientDiffs + NacelleCabinetDiffs, AmbientDiffs, AverageNames);
    WellFormedAppend(InverterDiffs + BearingDiffs + PitchCabinetDiffs + RotorDiffs + StatorDiffs + NacelleAmbientDiffs + NacelleCabinetDiffs, AmbientDiffs);
    ReadsOnlyAppend(InverterDiffs + BearingDiffs + PitchCabinetDiffs + RotorDiffs + StatorDiffs + NacelleAmbientDiffs + NacelleCabinetDiffs + AmbientDiffs, GeneratorNacelleDiffs, AverageNames);
    WellFormedAppend(InverterDiffs + BearingDiffs + PitchCabinetDiffs + RotorDiffs + StatorDiffs + NacelleAmbientDiffs + NacelleCabinetDiffs + AmbientDiffs, GeneratorNacelleDiffs);
  }

  /** The averages are made in the power sections. */
  lemma AveragesMadeFirst()
    ensures AverageNames <= NamesOf(PowerSections)
  {
    forall i | 0 <= i < |Averages| ensures Averages[i].name in NamesOf(PowerSections) {
      assert PowerSections[i] == Averages[i];
    }
    assert Averages[0].name == "Avg_Sys_1_inverters_cabinet_temp";
    assert Averages[1].name == "Avg_Sys_2_inverters_cabinet_temp";
    assert Averages[2].name == "Avg_bearing_temp";
    assert Averages[3].name == "Avg_pitch_cabinet_blade_temp";
    assert Averages[4].name == "Avg_rotor_temp";
    assert Averages[5].name == "Avg_stator_temp";
    assert Averages[6].name == "Avg_nacelle_ambient_temp";
  }

  /** Every feature the list reads is made before it is read. */
  lemma FeatureAssignmentsDefinedBeforeUse()
    ensures DefinedBeforeUse(FeatureAssignments, {})
  {
    PowerSectionsReadNothing();
    TemperatureSectionsReadAverages();
    AveragesMadeFirst();
    ReadsOnlyDefined(PowerSections, {}, {});
    assert {} + NamesOf(PowerSections) == NamesOf(PowerSections);
    ReadsOnlyDefined(TemperatureSections, AverageNames, NamesOf(PowerSections));
    DefinedBeforeUseAppend(PowerSections, TemperatureSections, {});
  }

  /** `create_new_features` on a uniform frame: where it raises, what it makes, and that each row is derived alone. */
  lemma NewFeaturesCorrect(scada: Table<real>)
    requires Uniform(scada)
    ensures Uniform(NewFeatures(scada).0) && SameIndex(scada, NewFeatures(scada).0)
    ensures NewFeatures(scada).1 == None <==> BaseColumnsOf(FeatureAssignments) <= scada.columns
    ensures NewFeatures(scada).1.Some? ==>
              NewFeatures(scada).1.value.KeyError? &&
              {} != NewFeatures(scada).1.value.missing <= BaseColumnsOf(FeatureAssignments) - scada.columns
    ensures NewFeatures(scada).1 == None ==> NewFeatures(scada).0.columns == NamesOf(FeatureAssignments)
    ensures NewFeatures(scada).1 == None ==>
              forall k :: 0 <= k < |scada.entries| ==>
                DeriveRow(scada.entries[k].row, FeatureAssignments, map[]) == Some(NewFeatures(scada).0.entries[k].row)
  {
    FeatureAssignmentsWellFormed();
    FeatureAssignmentsDefinedBeforeUse();
    var nf := IndexFrame(scada.entries);
    AssignColumnsRowwise(scada, nf, FeatureAssignments);
    AssignColumnsFails(scada, nf, FeatureAssignments);
    assert nf.columns + NamesOf(FeatureAssignments) == NamesOf(FeatureAssignments);
    assert forall k :: 0 <= k < |scada.entries| ==> nf.entries[k].row == map[];
  }

  /** Through a block that does not assign `name`, its value is carried unchanged. */
  lemma KeptThrough(base: map<Column, real>, a: seq<Assignment>, b: seq<Assignment>, acc: map<Column, real>, name: Column)
    requires name !in NamesOf(b) && DeriveRow(base, a + b, acc).Some?
    ensures DeriveRow(base, a, acc).Some?
    ensures name in DeriveRow(base, a + b, acc).value <==> name in DeriveRow(base, a, acc).value
    ensures name in DeriveRow(base, a, acc).value ==>
              DeriveRow(base, a + b, acc).value[name] == DeriveRow(base, a, acc).value[name]
  {
    DeriveRowAppend(base, a, b, acc);
    DeriveRowKeeps(base, b, DeriveRow(base, a, acc).value, name);
  }

  lemma PowerNamesNotReassigned()
    ensures "Diff_avg_Power_P_wind" !in NamesOf(TemperatureSections)
    ensures "Diff_P_wind_P_technical" !in NamesOf(TemperatureSections)
    ensures "Diff_P_wind_P_technical" !in NamesOf(PowerVsAvailableDiffs)
  {
  }

  lemma NacelleAverageNotReassigned()
    ensures "Avg_nacelle_ambient_temp" !in NamesOf(MaxMinDiffs)
    ensures "Avg_nacelle_ambient_temp" !in NamesOf(MaxAvgDiffs)
    ensures "Avg_nacelle_ambient_temp" !in NamesOf(AvgMinDiffs)
    ensures "Avg_nacelle_ambient_temp" !in NamesOf(AvailablePowerDiffs)
    ensures "Avg_nacelle_ambient_temp" !in NamesOf(PowerVsAvailableDiffs)
    ensures "Avg_nacelle_ambient_temp" !in NamesOf(InverterDiffs + BearingDiffs + PitchCabinetDiffs + RotorDiffs + StatorDiffs)
    ensures "Diff_avg_nacelle_ambient_temp" !in NamesOf(NacelleCabinetDiffs)
    ensures "Diff_avg_nacelle_ambient_temp" !in NamesOf(AmbientDiffs)
    ensures "Diff_avg_nacelle_ambient_temp" !in NamesOf(GeneratorNacelleDiffs)
  {
  }

  /**
   * `Diff_avg_Power_P_wind` is assigned four times (lines 271-274); the
   * feature holds the last one: average power minus the power available
   * under force-external reasons.
   */
  lemma PowerVsAvailableLastWins(base: map<Column, real>)
    ensures DeriveRow(base, FeatureAssignments, map[]).Some? ==>
              "WEC_ava_Power" in base && "WEC_ava_Available_P_force_external_reasons" in base &&
              "Diff_avg_Power_P_wind" in DeriveRow(base, FeatureAssignments, map[]).value &&
              DeriveRow(base, FeatureAssignments, map[]).value["Diff_avg_Power_P_wind"] ==
                base["WEC_ava_Power"] - base["WEC_ava_Available_P_force_external_reasons"]
  {
    if DeriveRow(base, FeatureAssignments, map[]).Some? {
      var name := "Diff_avg_Power_P_wind";
      PowerNamesNotReassigned();
      KeptThrough(base, PowerSections, TemperatureSections, map[], name);
      var pre := Averages + MaxMinDiffs + MaxAvgDiffs + AvgMinDiffs + AvailablePowerDiffs;
      DeriveRowAppend(base, pre, PowerVsAvailableDiffs, map[]);
      var m := DeriveRow(base, pre, map[]).value;
      assert NamesOf(PowerVsAvailableDiffs[4..]) == {};
      LastWriteWins(base, PowerVsAvailableDiffs, m, 3);
    }
  }

  /**
   * `Diff_P_wind_P_technical` is assigned twice (lines 263 and 265); the
   * feature holds the second: power available from wind minus the power
   * available under force-external reasons.
   */
  lemma AvailablePowerLastWins(base: map<Column, real>)
    ensures DeriveRow(base, FeatureAssignments, map[]).Some? ==>
              "WEC_ava_available_P_from_wind" in base && "WEC_ava_Available_P_force_external_reasons" in base &&
              "Diff_P_wind_P_technical" in DeriveRow(base, FeatureAssignments, map[]).value &&
              DeriveRow(base, FeatureAssignments, map[]).value["Diff_P_wind_P_technical"] ==
                base["WEC_ava_available_P_from_wind"] - base["WEC_ava_Available_P_force_external_reasons"]
  {
    if DeriveRow(base, FeatureAssignments, map[]).Some? {
      var name := "Diff_P_wind_P_technical";
      PowerNamesNotReassigned();
      KeptThrough(base, PowerSections, TemperatureSections, map[], name);
      var upTo := Averages + MaxMinDiffs + MaxAvgDiffs + AvgMinDiffs + AvailablePowerDiffs;
      KeptThrough(base, upTo, PowerVsAvailableDiffs, map[], name);
      var pre := Averages + MaxMinDiffs + MaxAvgDiffs + AvgMinDiffs;
      DeriveRowAppend(base, pre, AvailablePowerDiffs, map[]);
      var m := DeriveRow(base, pre, map[]).value;
      assert AvailablePowerDiffs[3..] == [AvailablePowerDiffs[3], AvailablePowerDiffs[4], AvailablePowerDiffs[5]];
      assert name !in NamesOf(AvailablePowerDiffs[3..]);
      LastWriteWins(base, AvailablePowerDiffs, m, 2);
    }
  }

  /** The mean of two columns, when both are present. */
  lemma AverageOfTwo(x: Column, y: Column, base: map<Column, real>, derived: map<Column, real>)
    ensures Eval(Average([x, y]), base, derived).Some? ==>
              x in base && y in base && Eval(Average([x, y]), base, derived).value == (base[x] + base[y]) / 2.0
  {
    var cols := [x, y];
    if Eval(Average(cols), base, derived).Some? {
      EvalDefined(Average(cols), base, derived);
      assert cols[0] in FormulaBase(Average(cols)) && cols[1] in FormulaBase(Average(cols));
      assert cols[1..] == [y];
      assert SumOf(base, [y]) == base[y] + SumOf(base, []);
      assert SumOf(base, cols) == base[x] + SumOf(base, [y]);
    }
  }

  /** The nacelle ambient average holds the mean of the two nacelle ambient sensors for the rest of the list. */
  lemma NacelleAverageValue(base: map<Column, real>)
    ensures DeriveRow(base, PowerSections, map[]).Some? ==>
              "CS101__Nacelle_ambient_temp_1" in base && "CS101__Nacelle_ambient_temp_2" in base &&
              "Avg_nacelle_ambient_temp" in DeriveRow(base, PowerSections, map[]).value &&
              DeriveRow(base, PowerSections, map[]).value["Avg_nacelle_ambient_temp"] ==
                (base["CS101__Nacelle_ambient_temp_1"] + base["CS101__Nacelle_ambient_temp_2"]) / 2.0
  {
    if DeriveRow(base, PowerSections, map[]).Some? {
      var avg := "Avg_nacelle_ambient_temp";
      NacelleAverageNotReassigned();
      KeptThrough(base, Averages + MaxMinDiffs + MaxAvgDiffs + AvgMinDiffs + AvailablePowerDiffs, PowerVsAvailableDiffs, map[], avg);
      KeptThrough(base, Averages + MaxMinDiffs + MaxAvgDiffs + AvgMinDiffs, AvailablePowerDiffs, map[], avg);
      KeptThrough(base, Averages + MaxMinDiffs + MaxAvgDiffs, AvgMinDiffs, map[], avg);
      KeptThrough(base, Averages + MaxMinDiffs, MaxAvgDiffs, map[], avg);
      KeptThrough(base, Averages, MaxMinDiffs, map[], avg);
      assert NamesOf(Averages[7..]) == {};
      LastWriteWins(base, Averages, map[], 6);
      AverageOfTwo("CS101__Nacelle_ambient_temp_1", "CS101__Nacelle_ambient_temp_2", base,
                   DeriveRow(base, Averages[..6], map[]).value);
    }
  }

  /**
   * `Diff_avg_nacelle_ambient_temp` is assigned twice (lines 327 and 328);
   * the feature holds the second: sensor 2 minus the mean of both sensors,
   * which is half the difference between sensor 2 and sensor 1.
   */
  lemma NacelleAmbientLastWins(base: map<Column, real>)
    ensures DeriveRow(base, FeatureAssignments, map[]).Some? ==>
              "CS101__Nacelle_ambient_temp_1" in base && "CS101__Nacelle_ambient_temp_2" in base &&
              "Diff_avg_nacelle_ambient_temp" in DeriveRow(base, FeatureAssignments, map[]).value &&
              DeriveRow(base, FeatureAssignments, map[]).value["Diff_avg_nacelle_ambient_temp"] ==
                (base["CS101__Nacelle_ambient_temp_2"] - base["CS101__Nacelle_ambient_temp_1"]) / 2.0
  {
    if DeriveRow(base, FeatureAssignments, map[]).Some? {
      var name := "Diff_avg_nacelle_ambient_temp";
      var avg := "Avg_nacelle_ambient_temp";
      NacelleAverageNotReassigned();
      DeriveRowAppend(base, PowerSections, TemperatureSections, map[]);
      NacelleAverageValue(base);
      var m := DeriveRow(base, PowerSections, map[]).value;
      var t0 := InverterDiffs + BearingDiffs + PitchCabinetDiffs + RotorDiffs + StatorDiffs;
      var t1 := t0 + NacelleAmbientDiffs;
      KeptThrough(base, t1 + NacelleCabinetDiffs + AmbientDiffs, GeneratorNacelleDiffs, m, name);
      KeptThrough(base, t1 + NacelleCabinetDiffs, AmbientDiffs, m, name);
      KeptThrough(base, t1, NacelleCabinetDiffs, m, name);
      DeriveRowAppend(base, t0, NacelleAmbientDiffs, m);
      DeriveRowKeeps(base, t0, m, avg);
      var m0 := DeriveRow(base, t0, m).value;
      assert NamesOf(NacelleAmbientDiffs[3..]) == {};
      LastWriteWins(base, NacelleAmbientDiffs, m0, 2);
    }
  }
}
