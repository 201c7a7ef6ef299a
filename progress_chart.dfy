/** The progress chart: a status histogram drawn as a pie, a per-type
    breakdown drawn as stacked bars, and four summary counters, all derived
    from the full item list. */
module ProgressChart {
  import opened Items

  // ---------------------------------------------------------------------
  // The `reduce` into an object

  /** One entry of an object used as a histogram, `[key, count]`. */
  datatype Entry = Entry(key: string, count: nat)

  /** The keys of an object, in insertion order. */
  function Keys(acc: seq<Entry>): (ks: seq<string>)
    ensures |ks| == |acc| && forall i :: 0 <= i < |acc| ==> ks[i] == acc[i].key
  {
    if acc == [] then [] else [acc[0].key] + Keys(acc[1..])
  }

  predicate DistinctKeys(acc: seq<Entry>) {
    forall i, j :: 0 <= i < j < |acc| ==> acc[i].key != acc[j].key
  }

  predicate PositiveCounts(acc: seq<Entry>) {
    forall i :: 0 <= i < |acc| ==> acc[i].count >= 1
  }

  function SumCounts(acc: seq<Entry>): nat {
    if acc == [] then 0 else acc[0].count + SumCounts(acc[1..])
  }

  /** `acc[k] || 0`: the count stored under `k`, or 0 when there is none. */
  function Lookup(acc: seq<Entry>, k: string): (n: nat)
    ensures n > 0 ==> k in Keys(acc)
  {
    if acc == [] then 0 else if acc[0].key == k then acc[0].count else Lookup(acc[1..], k)
  }

  /** In an object with distinct keys, looking a key up finds its entry. */
  lemma {:induction false} LookupFindsEntry(acc: seq<Entry>, i: nat)
    requires DistinctKeys(acc) && i < |acc|
    ensures Lookup(acc, acc[i].key) == acc[i].count
  {
    if i > 0 {
      assert DistinctKeys(acc[1..]) by {
        forall p, q | 0 <= p < q < |acc[1..]| ensures acc[1..][p].key != acc[1..][q].key {
          assert acc[1..][p] == acc[p + 1] && acc[1..][q] == acc[q + 1];
        }
      }
      assert acc[1..][i - 1] == acc[i];
      LookupFindsEntry(acc[1..], i - 1);
    }
  }

  /** `acc[k] = (acc[k] || 0) + 1`: an existing key keeps its place, a new
      key goes at the end. */
  function Bump(acc: seq<Entry>, k: string): (r: seq<Entry>)
    ensures |r| == if k in Keys(acc) then |acc| else |acc| + 1
  {
    if acc == [] then [Entry(k, 1)]
    else if acc[0].key == k then [Entry(k, acc[0].count + 1)] + acc[1..]
    else [acc[0]] + Bump(acc[1..], k)
  }

  /** Bumping adds one to the count of `k` and to no other count. */
  lemma {:induction false} BumpLookup(acc: seq<Entry>, k: string, k': string)
    ensures Lookup(Bump(acc, k), k') == Lookup(acc, k') + (if k' == k then 1 else 0)
  {
    if acc != [] && acc[0].key != k {
      BumpLookup(acc[1..], k, k');
    }
  }

  /** Bumping adds `k` to the keys and one to the total. */
  lemma {:induction false} BumpKeys(acc: seq<Entry>, k: string)
    ensures forall k' :: k' in Keys(Bump(acc, k)) <==> k' in Keys(acc) || k' == k
    ensures SumCounts(Bump(acc, k)) == SumCounts(acc) + 1
  {
    if acc != [] {
      var r := Bump(acc, k);
      assert Keys(acc) == [acc[0].key] + Keys(acc[1..]);
      if acc[0].key == k {
        assert r[1..] == acc[1..];
        assert Keys(r) == [k] + Keys(acc[1..]);
      } else {
        BumpKeys(acc[1..], k);
        assert r[1..] == Bump(acc[1..], k);
        assert Keys(r) == [acc[0].key] + Keys(Bump(acc[1..], k));
      }
    }
  }

  lemma DistinctKeysTail(acc: seq<Entry>)
    requires acc != [] && DistinctKeys(acc)
    ensures DistinctKeys(acc[1..])
    ensures forall k :: k in Keys(acc[1..]) ==> k != acc[0].key
  {
    forall p, q | 0 <= p < q < |acc[1..]| ensures acc[1..][p].key != acc[1..][q].key {
      assert acc[1..][p] == acc[p + 1] && acc[1..][q] == acc[q + 1];
    }
    forall k | k in Keys(acc[1..]) ensures k != acc[0].key {
      var m :| 0 <= m < |acc[1..]| && Keys(acc[1..])[m] == k;
      assert acc[m + 1] == acc[1..][m];
    }
  }

  lemma DistinctKeysCons(e: Entry, rest: seq<Entry>)
    requires DistinctKeys(rest) && e.key !in Keys(rest)
    ensures DistinctKeys([e] + rest)
  {
    var r := [e] + rest;
    forall p, q | 0 <= p < q < |r| ensures r[p].key != r[q].key {
      assert r[q] == rest[q - 1] && Keys(rest)[q - 1] == rest[q - 1].key;
      if p > 0 {
        assert r[p] == rest[p - 1];
      }
    }
  }

  /** Bumping keeps the keys distinct. */
  lemma {:induction false} BumpDistinct(acc: seq<Entry>, k: string)
    requires DistinctKeys(acc)
    ensures DistinctKeys(Bump(acc, k))
  {
    if acc != [] {
      DistinctKeysTail(acc);
      if acc[0].key == k {
        assert Bump(acc, k) == [Entry(k, acc[0].count + 1)] + acc[1..];
        DistinctKeysCons(Entry(k, acc[0].count + 1), acc[1..]);
      } else {
        var rest := Bump(acc[1..], k);
        BumpDistinct(acc[1..], k);
        BumpKeys(acc[1..], k);
        assert Bump(acc, k) == [acc[0]] + rest;
        DistinctKeysCons(acc[0], rest);
      }
    }
  }

  /** Bumping keeps the counts positive. */
  lemma {:induction false} BumpPositive(acc: seq<Entry>, k: string)
    requires PositiveCounts(acc)
    ensures PositiveCounts(Bump(acc, k))
  {
    if acc != [] && acc[0].key != k {
      assert PositiveCounts(acc[1..]) by {
        forall p | 0 <= p < |acc[1..]| ensures acc[1..][p].count >= 1 {
          assert acc[1..][p] == acc[p + 1];
        }
      }
      BumpPositive(acc[1..], k);
      var r := Bump(acc, k);
      assert r == [acc[0]] + Bump(acc[1..], k);
    }
  }

  /** `items.reduce((acc, item) => { acc[item[a]] = (acc[item[a]] || 0) + 1;
      return acc; }, {})`, the items taken from first to last. */
  function Tally(items: seq<LearningItem>, a: Attr): (t: seq<Entry>)
    ensures |t| <= |items|
  {
    if items == [] then []
    else Bump(Tally(items[..|items| - 1], a), KeyOf(items[|items| - 1], a))
  }

  /** Looking up any key in the histogram, present or not, gives the number
      of items with that key. */
  lemma {:induction false} TallyLookup(items: seq<LearningItem>, a: Attr, k: string)
    ensures Lookup(Tally(items, a), k) == CountBy(items, a, k)
  {
    if items != [] {
      var init := items[..|items| - 1];
      var last := items[|items| - 1];
      TallyLookup(init, a, k);
      BumpLookup(Tally(init, a), KeyOf(last, a), k);
      CountByLast(items, a, k);
    }
  }

  /** Counting over a non-empty list is counting over all but its last item,
      plus one when the last item has the key. */
  lemma CountByLast(items: seq<LearningItem>, a: Attr, k: string)
    requires items != []
    ensures CountBy(items, a, k)
      == CountBy(items[..|items| - 1], a, k) + (if KeyOf(items[|items| - 1], a) == k then 1 else 0)
  {
    var init := items[..|items| - 1];
    var last := items[|items| - 1];
    assert items == init + [last];
    CountByAppend(init, [last], a, k);
  }

  /** The histogram has one entry per distinct key present, each with a
      positive count, and the counts add up to the list length. */
  lemma TallyShape(items: seq<LearningItem>, a: Attr)
    ensures DistinctKeys(Tally(items, a)) && PositiveCounts(Tally(items, a))
    ensures SumCounts(Tally(items, a)) == |items|
    ensures forall k :: k in Keys(Tally(items, a)) <==> k in KeySet(items, a)
  {
    TallyWellFormed(items, a);
    TallyCoversKeys(items, a);
  }

  /** The reduce keeps the keys distinct and the counts positive. */
  lemma {:induction false} TallyWellFormed(items: seq<LearningItem>, a: Attr)
    ensures DistinctKeys(Tally(items, a)) && PositiveCounts(Tally(items, a))
  {
    if items != [] {
      var init := items[..|items| - 1];
      TallyWellFormed(init, a);
      BumpDistinct(Tally(init, a), KeyOf(items[|items| - 1], a));
      BumpPositive(Tally(init, a), KeyOf(items[|items| - 1], a));
    }
  }

  /** The reduce lists exactly the keys present, and counts every item once. */
  lemma {:induction false} TallyCoversKeys(items: seq<LearningItem>, a: Attr)
    ensures SumCounts(Tally(items, a)) == |items|
    ensures forall k :: k in Keys(Tally(items, a)) <==> k in KeySet(items, a)
  {
    if items != [] {
      var init := items[..|items| - 1];
      TallyCoversKeys(init, a);
      BumpKeys(Tally(init, a), KeyOf(items[|items| - 1], a));
      KeySetLast(items, a);
    }
  }

  /** The keys of a non-empty list are those of all but its last item, plus
      the last item's. */
  lemma KeySetLast(items: seq<LearningItem>, a: Attr)
    requires items != []
    ensures KeySet(items, a) == KeySet(items[..|items| - 1], a) + {KeyOf(items[|items| - 1], a)}
  {
    assert items == items[..|items| - 1] + [items[|items| - 1]];
    KeySetAppend(items[..|items| - 1], items[|items| - 1], a);
  }

  /** Every entry of the histogram holds the count of its key. */
  lemma EntryCounts(items: seq<LearningItem>, a: Attr, i: nat)
    requires i < |Tally(items, a)|
    ensures Tally(items, a)[i].count == CountBy(items, a, Tally(items, a)[i].key) >= 1
  {
    TallyShape(items, a);
    TallyLookup(items, a, Tally(items, a)[i].key);
    LookupFindsEntry(Tally(items, a), i);
  }

  /** The histogram's keys, as a set, are the keys present in the list. */
  lemma TallyKeySet(items: seq<LearningItem>, a: Attr)
    ensures (set i | 0 <= i < |Tally(items, a)| :: Tally(items, a)[i].key) == KeySet(items, a)
  {
    var t := Tally(items, a);
    TallyShape(items, a);
    var keys := set i | 0 <= i < |t| :: t[i].key;
    forall k | k in KeySet(items, a) ensures k in keys {
      assert k in Keys(t);
      var i :| 0 <= i < |t| && Keys(t)[i] == k;
      assert t[i].key == k;
    }
    forall k | k in keys ensures k in KeySet(items, a) {
      var i :| 0 <= i < |t| && t[i].key == k;
      assert Keys(t)[i] == k;
    }
  }

  // ---------------------------------------------------------------------
  // The pie: status distribution

  /** One pie slice: a status, its count and its share of all items. */
  datatype Slice = Slice(name: string, value: nat, percentage: Percentage)

  /** `pieData`: one slice per entry of the status histogram, in the order
      the statuses first occur. */
  function PieData(items: seq<LearningItem>): (pie: seq<Slice>)
    ensures |pie| <= |items|
    ensures forall i :: 0 <= i < |pie| ==> pie[i].percentage.whole == |items| > 0
  {
    var t := Tally(items, Status);
    seq(|t|, i requires 0 <= i < |t| => Slice(t[i].key, t[i].count, Percentage(t[i].count, |items|)))
  }

  /** The pie has exactly one slice per distinct status present. */
  lemma PieSlices(items: seq<LearningItem>)
    ensures var pie := PieData(items);
      && (set i | 0 <= i < |pie| :: pie[i].name) == KeySet(items, Status)
      && (forall i, j :: 0 <= i < j < |pie| ==> pie[i].name != pie[j].name)
  {
    var t := Tally(items, Status);
    var pie := PieData(items);
    TallyShape(items, Status);
    TallyKeySet(items, Status);
    assert forall i :: 0 <= i < |pie| ==> pie[i].name == t[i].key;
    assert (set i | 0 <= i < |pie| :: pie[i].name) == (set i | 0 <= i < |t| :: t[i].key);
  }

  /** Each slice's value is the number of items with its status, and its
      percentage is that count over the list length, which is in (0, 100]:
      a slice exists only for a status some item has, so the list is never
      empty where a percentage is taken. */
  lemma PieValues(items: seq<LearningItem>)
    ensures var pie := PieData(items);
      forall i :: 0 <= i < |pie| ==>
        && pie[i].value == CountBy(items, Status, pie[i].name) >= 1
        && pie[i].percentage == Percentage(pie[i].value, |items|)
        && 0 < pie[i].value <= |items|
        && 0.0 < pie[i].percentage.Value() <= 100.0
  {
    var t := Tally(items, Status);
    var pie := PieData(items);
    forall i | 0 <= i < |pie|
      ensures pie[i].value == CountBy(items, Status, pie[i].name) >= 1
      ensures pie[i].percentage == Percentage(pie[i].value, |items|)
      ensures 0 < pie[i].value <= |items|
      ensures 0.0 < pie[i].percentage.Value() <= 100.0
    {
      assert pie[i] == Slice(t[i].key, t[i].count, Percentage(t[i].count, |items|));
      EntryCounts(items, Status, i);
      PercentageBounds(pie[i].percentage);
    }
  }

  function Percentages(pie: seq<Slice>): (ps: seq<Percentage>)
    ensures |ps| == |pie| && forall i :: 0 <= i < |pie| ==> ps[i] == pie[i].percentage
  {
    if pie == [] then [] else [pie[0].percentage] + Percentages(pie[1..])
  }

  lemma {:induction false} SumPartsOfTally(ps: seq<Percentage>, t: seq<Entry>)
    requires |ps| == |t| && forall i :: 0 <= i < |t| ==> ps[i].part == t[i].count
    ensures SumParts(ps) == SumCounts(t)
  {
    if t != [] {
      SumPartsOfTally(ps[1..], t[1..]);
    }
  }

  /** The percentages of a non-empty list's pie add up to exactly 100. */
  lemma PieSumsToHundred(items: seq<LearningItem>)
    requires items != []
    ensures SumValues(Percentages(PieData(items))) == 100.0
  {
    var t := Tally(items, Status);
    var ps := Percentages(PieData(items));
    assert forall i :: 0 <= i < |ps| ==> ps[i] == Percentage(t[i].count, |items|);
    SumPartsOfTally(ps, t);
    TallyShape(items, Status);
    PartitionSumsToHundred(ps, |items|);
  }

  // ---------------------------------------------------------------------
  // The bars: per-type breakdown

  /** `items.filter(item => item.type === t && item.status === s).length` */
  function CountTypeStatus(items: seq<LearningItem>, t: string, s: string): (n: nat)
    ensures n <= CountBy(items, Type, t) && n <= CountBy(items, Status, s)
  {
    if items == [] then 0
    else (if items[0].itemType == t && items[0].status == s then 1 else 0) + CountTypeStatus(items[1..], t, s)
  }

  /** Within one type, the three status counts add up to at most the type's
      count, and to exactly that when every status is one of the three. */
  lemma {:induction false} TypeStatusPartition(items: seq<LearningItem>, t: string)
    ensures CountTypeStatus(items, t, COMPLETED) + CountTypeStatus(items, t, IN_PROGRESS)
            + CountTypeStatus(items, t, STARTED) <= CountBy(items, Type, t)
    ensures AllKnownStatuses(items) ==>
              CountTypeStatus(items, t, COMPLETED) + CountTypeStatus(items, t, IN_PROGRESS)
              + CountTypeStatus(items, t, STARTED) == CountBy(items, Type, t)
  {
    if items != [] {
      TypeStatusPartition(items[1..], t);
      assert AllKnownStatuses(items) ==> AllKnownStatuses(items[1..]) by {
        assert forall i :: 0 <= i < |items[1..]| ==> items[1..][i] == items[i + 1];
      }
    }
  }

  /** One bar: a type, its count and its count per status. */
  datatype Bar = Bar(itemType: string, count: nat, completed: nat, inProgress: nat, started: nat)

  /** `barData`: one bar per entry of the type histogram. */
  function BarData(items: seq<LearningItem>): (bars: seq<Bar>)
    ensures |bars| <= |items|
  {
    var t := Tally(items, Type);
    seq(|t|, i requires 0 <= i < |t| =>
      Bar(t[i].key, t[i].count,
          CountTypeStatus(items, t[i].key, COMPLETED),
          CountTypeStatus(items, t[i].key, IN_PROGRESS),
          CountTypeStatus(items, t[i].key, STARTED)))
  }

  /** There is exactly one bar per distinct type present. */
  lemma BarTypes(items: seq<LearningItem>)
    ensures var bars := BarData(items);
      && (set i | 0 <= i < |bars| :: bars[i].itemType) == KeySet(items, Type)
      && (forall i, j :: 0 <= i < j < |bars| ==> bars[i].itemType != bars[j].itemType)
  {
    var t := Tally(items, Type);
    var bars := BarData(items);
    TallyShape(items, Type);
    TallyKeySet(items, Type);
    assert forall i :: 0 <= i < |bars| ==> bars[i].itemType == t[i].key;
    assert (set i | 0 <= i < |bars| :: bars[i].itemType) == (set i | 0 <= i < |t| :: t[i].key);
  }

  /** Each bar's count is the number of items of its type, and its three
      status counts are the items of that type with each status; they add up
      to at most the bar's count, and to exactly that when every status is
      one of the three. */
  lemma BarCounts(items: seq<LearningItem>)
    ensures var bars := BarData(items);
      forall i :: 0 <= i < |bars| ==>
        && bars[i].count == CountBy(items, Type, bars[i].itemType) >= 1
        && bars[i].completed == CountTypeStatus(items, bars[i].itemType, COMPLETED)
        && bars[i].inProgress == CountTypeStatus(items, bars[i].itemType, IN_PROGRESS)
        && bars[i].started == CountTypeStatus(items, bars[i].itemType, STARTED)
        && bars[i].completed + bars[i].inProgress + bars[i].started <= bars[i].count
        && (AllKnownStatuses(items) ==> bars[i].completed + bars[i].inProgress + bars[i].started == bars[i].count)
  {
    var t := Tally(items, Type);
    var bars := BarData(items);
    forall i | 0 <= i < |bars|
      ensures bars[i].count == CountBy(items, Type, bars[i].itemType) >= 1
      ensures bars[i].completed == CountTypeStatus(items, bars[i].itemType, COMPLETED)
      ensures bars[i].inProgress == CountTypeStatus(items, bars[i].itemType, IN_PROGRESS)
      ensures bars[i].started == CountTypeStatus(items, bars[i].itemType, STARTED)
      ensures bars[i].completed + bars[i].inProgress + bars[i].started <= bars[i].count
      ensures AllKnownStatuses(items) ==> bars[i].completed + bars[i].inProgress + bars[i].started == bars[i].count
    {
      assert bars[i].itemType == t[i].key && bars[i].count == t[i].count;
      EntryCounts(items, Type, i);
      TypeStatusPartition(items, t[i].key);
    }
  }

  // ---------------------------------------------------------------------
  // What the component renders

  /** The four counters under the charts. */
  datatype Summary = Summary(total: nat, started: nat, inProgress: nat, completed: nat)

  datatype Chart =
    | NoData
    | Overview(pie: seq<Slice>, bars: seq<Bar>, summary: Summary)

  /** The chart for `items`: the "no data" message for an empty list;
      otherwise the two charts and the counters, each status counter being
      `statusCounts[status] || 0`, which is 0 for a status no item has. */
  function Render(items: seq<LearningItem>): (c: Chart)
    ensures c.NoData? <==> items == []
    ensures c.Overview? ==> c.pie == PieData(items) && c.bars == BarData(items)
    ensures c.Overview? ==>
              && c.summary.total == |items|
              && c.summary.started == CountBy(items, Status, STARTED)
              && c.summary.inProgress == CountBy(items, Status, IN_PROGRESS)
              && c.summary.completed == CountBy(items, Status, COMPLETED)
  {
    if items == [] then NoData
    else
      var statusCounts := Tally(items, Status);
      TallyLookup(items, Status, STARTED);
      TallyLookup(items, Status, IN_PROGRESS);
      TallyLookup(items, Status, COMPLETED);
      Overview(PieData(items), BarData(items),
               Summary(|items|, Lookup(statusCounts, STARTED), Lookup(statusCounts, IN_PROGRESS),
                       Lookup(statusCounts, COMPLETED)))
  }

  /** A status counter under the charts reads 0 exactly when no item has
      that status, and otherwise the number of items that have it. */
  lemma SummaryCounters(items: seq<LearningItem>, st: string)
    requires items != [] && st in STATUS_OPTIONS
    ensures var c := Render(items).summary;
      var shown := if st == STARTED then c.started else if st == IN_PROGRESS then c.inProgress else c.completed;
      && shown == CountBy(items, Status, st)
      && (shown == 0 <==> forall i :: 0 <= i < |items| ==> items[i].status != st)
  {
    CountByExtremes(items, Status, st);
  }
}
