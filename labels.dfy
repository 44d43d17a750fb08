/**
 * `create_labels`: the fault label of every timestamp of the feature index.
 * Every timestamp starts at 0. The status log is then walked in order, and a
 * row whose main status is one of the five tracked fault codes writes its code
 * over every timestamp strictly after the row's own time and strictly before
 * the next row's time; the last row of the log has no upper bound. A later
 * row overwrites what an earlier one wrote.
 */
module Labels {
  import opened Tables

  /** A row of the turbine's status log: when it was logged and its main status code. */
  datatype StatusRow = StatusRow(time: Time, mainStatus: int)

  /** The five main statuses that are labelled as faults. */
  const FaultMainStatuses: set<int> := {80, 62, 228, 60, 9}

  /** Status row `i` writes its code over timestamp `t`. */
  predicate Covers(status: seq<StatusRow>, i: nat, t: Time)
    requires i < |status|
  {
    status[i].mainStatus in FaultMainStatuses && status[i].time < t &&
    (i == |status| - 1 || t < status[i + 1].time)
  }

  /** The labels once status rows 0..n-1 have been processed. */
  function LabelsAfter(index: seq<Time>, status: seq<StatusRow>, n: nat): (r: seq<int>)
    requires n <= |status|
    ensures |r| == |index|
  {
    if n == 0 then seq(|index|, k => 0)
    else
      var prev := LabelsAfter(index, status, n - 1);
      seq(|index|, k requires 0 <= k < |index| =>
        if Covers(status, n - 1, index[k]) then status[n - 1].mainStatus else prev[k])
  }

  /** `create_labels` as a function of the feature index and the status log. */
  function Labels(index: seq<Time>, status: seq<StatusRow>): seq<int>
  {
    LabelsAfter(index, status, |status|)
  }

  /**
   * The boolean-mask assignment of `create_labels`: every label whose
   * timestamp is after `start` and, when there is an `end`, before it,
   * becomes `code`.
   */
  function Masked(labels: seq<int>, index: seq<Time>, start: Time, end: Option<Time>, code: int): (r: seq<int>)
    requires |labels| == |index|
    ensures |r| == |labels|
  {
    seq(|labels|, k requires 0 <= k < |labels| =>
      if start < index[k] && (end.None? || index[k] < end.value) then code else labels[k])
  }

  /** The mask a tracked status row builds is the set of timestamps it covers. */
  lemma MaskedStep(index: seq<Time>, status: seq<StatusRow>, i: nat, end: Option<Time>)
    requires i < |status| && status[i].mainStatus in FaultMainStatuses
    requires end == (if i == |status| - 1 then None else Some(status[i + 1].time))
    ensures Masked(LabelsAfter(index, status, i), index, status[i].time, end, status[i].mainStatus) ==
            LabelsAfter(index, status, i + 1)
  {
  }

  /** The labelling loop of `create_labels`. */
  method CreateLabels(index: seq<Time>, status: seq<StatusRow>) returns (labels: seq<int>)
    ensures labels == Labels(index, status)
  {
    labels := seq(|index|, k => 0);
    for i := 0 to |status|
      invariant labels == LabelsAfter(index, status, i)
    {
      var current := status[i].mainStatus;
      if current in FaultMainStatuses {
        var start := status[i].time;
        if i == |status| - 1 {
          MaskedStep(index, status, i, None);
          labels := Masked(labels, index, start, None, current);
        } else {
          var end := status[i + 1].time;
          MaskedStep(index, status, i, Some(end));
          labels := Masked(labels, index, start, Some(end), current);
        }
      } else {
        assert LabelsAfter(index, status, i + 1) == labels;
      }
    }
  }

  /**
   * A row leaves every label as it was when its code is not a tracked fault,
   * or when the next row is logged no later than it (an empty interval).
   */
  lemma IdleRow(index: seq<Time>, status: seq<StatusRow>, i: nat)
    requires i < |status|
    requires status[i].mainStatus !in FaultMainStatuses || (i < |status| - 1 && status[i + 1].time <= status[i].time)
    ensures LabelsAfter(index, status, i + 1) == LabelsAfter(index, status, i)
  {
  }

  /**
   * After rows 0..n-1, a label is 0 exactly when none of those rows covers
   * its timestamp, and otherwise it is the code of the last row that does.
   */
  lemma {:induction false} LabelsAfterAt(index: seq<Time>, status: seq<StatusRow>, n: nat, k: nat)
    requires n <= |status| && k < |index|
    ensures LabelsAfter(index, status, n)[k] == 0 <==> forall i :: 0 <= i < n ==> !Covers(status, i, index[k])
    ensures LabelsAfter(index, status, n)[k] != 0 ==>
              exists i :: 0 <= i < n && Covers(status, i, index[k]) &&
                LabelsAfter(index, status, n)[k] == status[i].mainStatus &&
                forall j :: i < j < n ==> !Covers(status, j, index[k])
  {
    if n > 0 {
      LabelsAfterAt(index, status, n - 1, k);
      if Covers(status, n - 1, index[k]) {
        assert LabelsAfter(index, status, n)[k] == status[n - 1].mainStatus;
      } else {
        assert LabelsAfter(index, status, n)[k] == LabelsAfter(index, status, n - 1)[k];
      }
    }
  }

  /** Every label is 0 or one of the five fault codes. */
  lemma LabelCodes(index: seq<Time>, status: seq<StatusRow>, k: nat)
    requires k < |index|
    ensures Labels(index, status)[k] == 0 || Labels(index, status)[k] in FaultMainStatuses
  {
    LabelsAfterAt(index, status, |status|, k);
  }

  /** A timestamp is labelled 0 exactly when no status row covers it. */
  lemma UnlabelledIffUncovered(index: seq<Time>, status: seq<StatusRow>, k: nat)
    requires k < |index|
    ensures Labels(index, status)[k] == 0 <==> forall i :: 0 <= i < |status| ==> !Covers(status, i, index[k])
  {
    LabelsAfterAt(index, status, |status|, k);
  }

  /** When several rows cover a timestamp, the label is the code of the last of them. */
  lemma LastCoverWins(index: seq<Time>, status: seq<StatusRow>, k: nat, i: nat)
    requires k < |index| && i < |status| && Covers(status, i, index[k])
    requires forall j :: i < j < |status| ==> !Covers(status, j, index[k])
    ensures Labels(index, status)[k] == status[i].mainStatus
  {
    LabelsAfterAt(index, status, |status|, k);
    var i' :| 0 <= i' < |status| && Covers(status, i', index[k]) &&
              Labels(index, status)[k] == status[i'].mainStatus &&
              forall j :: i' < j < |status| ==> !Covers(status, j, index[k]);
    assert i' == i;
  }

  /** The status log is in time order. */
  predicate InTimeOrder(status: seq<StatusRow>)
  {
    forall i, j :: 0 <= i < j < |status| ==> status[i].time <= status[j].time
  }

  /** In a log in time order, a timestamp that row `i` covers is covered by no later row. */
  lemma CoveredOnce(status: seq<StatusRow>, i: nat, j: nat, t: Time)
    requires InTimeOrder(status) && i < j < |status| && Covers(status, i, t)
    ensures !Covers(status, j, t)
  {
    assert t < status[i + 1].time;
    if i + 1 < j {
      assert status[i + 1].time <= status[j].time;
    }
  }

  /** In a log in time order, a timestamp covered by row `i` carries row `i`'s code. */
  lemma OrderedLabel(index: seq<Time>, status: seq<StatusRow>, k: nat, i: nat)
    requires InTimeOrder(status) && k < |index| && i < |status| && Covers(status, i, index[k])
    ensures Labels(index, status)[k] == status[i].mainStatus
  {
    forall j | i < j < |status| ensures !Covers(status, j, index[k]) {
      CoveredOnce(status, i, j, index[k]);
    }
    LastCoverWins(index, status, k, i);
  }

  /** The last row of the log, when it is a fault, labels every later timestamp. */
  lemma LastRowOpenEnded(index: seq<Time>, status: seq<StatusRow>, k: nat)
    requires k < |index| && |status| > 0
    requires status[|status| - 1].mainStatus in FaultMainStatuses && status[|status| - 1].time < index[k]
    ensures Labels(index, status)[k] == status[|status| - 1].mainStatus
  {
    LastCoverWins(index, status, k, |status| - 1);
  }
}
