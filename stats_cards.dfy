/** The four summary cards above the list: total, completed, in progress and
    the completion rate, all derived from the full item list. */
module StatsCards {
  import opened Items
  import ProgressChart

  datatype Stats = Stats(
    totalItems: nat,
    completedItems: nat,
    inProgressItems: nat,
    startedItems: nat,
    /** `totalItems > 0 ? (completedItems / totalItems) * 100 : 0`, exactly */
    completionRate: Percentage,
    /** the completion card's progress bar */
    showProgressBar: bool)

  /** The cards' values for `items`. */
  function Compute(items: seq<LearningItem>): (s: Stats)
    ensures s.totalItems == |items|
    ensures s.completedItems == CountBy(items, Status, COMPLETED)
    ensures s.inProgressItems == CountBy(items, Status, IN_PROGRESS)
    ensures s.startedItems == CountBy(items, Status, STARTED)
    ensures s.completedItems <= s.totalItems && s.inProgressItems <= s.totalItems && s.startedItems <= s.totalItems
    ensures AllKnownStatuses(items) ==> s.completedItems + s.inProgressItems + s.startedItems == s.totalItems
    ensures s.completionRate == Percentage(s.completedItems, s.totalItems)
    ensures s.showProgressBar <==> s.totalItems > 0
  {
    StatusCountsPartition(items);
    var total := |items|;
    var completed := CountBy(items, Status, COMPLETED);
    Stats(total, completed, CountBy(items, Status, IN_PROGRESS), CountBy(items, Status, STARTED),
          Percentage(completed, total), total > 0)
  }

  /** The completion rate is 0 for an empty list (no division by zero); it
      lies in [0, 100] and is 100 exactly when the list is non-empty and
      every item in it is completed. (That it is the completed share times
      100 is `Compute`'s contract with `PercentageBounds`.) */
  lemma CompletionRateBounds(items: seq<LearningItem>)
    ensures var r := Compute(items).completionRate.Value();
      && (|items| == 0 ==> r == 0.0)
      && 0.0 <= r <= 100.0
      && (r == 100.0 <==> |items| > 0 && forall i :: 0 <= i < |items| ==> items[i].status == COMPLETED)
  {
    var p := Compute(items).completionRate;
    var r := p.Value();
    assert p.part == CountBy(items, Status, COMPLETED) && p.whole == |items|;
    PercentageBounds(p);
    var all := forall i :: 0 <= i < |items| ==> items[i].status == COMPLETED;
    assert all <==> p.part == p.whole by {
      CountByExtremes(items, Status, COMPLETED);
    }
    assert r == 100.0 <==> 0 < p.whole && p.part == p.whole;
  }

  /** Adding one item to the list raises the total by one and raises the
      completed count by one exactly when the new item is completed. */
  lemma {:induction false} AddingOneItem(items: seq<LearningItem>, item: LearningItem)
    ensures Compute([item] + items).totalItems == Compute(items).totalItems + 1
    ensures Compute([item] + items).completedItems
            == Compute(items).completedItems + (if item.status == COMPLETED then 1 else 0)
  {
    assert ([item] + items)[1..] == items;
  }

  /** The cards and the chart's counters agree: each status card shows the
      count the chart's status histogram holds for that status, 0 when the
      status is absent from it. */
  lemma CardsMatchChart(items: seq<LearningItem>)
    ensures var s := Compute(items);
      var counts := ProgressChart.Tally(items, Status);
      && s.completedItems == ProgressChart.Lookup(counts, COMPLETED)
      && s.inProgressItems == ProgressChart.Lookup(counts, IN_PROGRESS)
      && s.startedItems == ProgressChart.Lookup(counts, STARTED)
  {
    ProgressChart.TallyLookup(items, Status, COMPLETED);
    ProgressChart.TallyLookup(items, Status, IN_PROGRESS);
    ProgressChart.TallyLookup(items, Status, STARTED);
  }
}
