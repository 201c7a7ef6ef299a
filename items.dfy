/** The learning item record that every component of the tracker works on,
    the fixed option lists, and counting over lists of items. */
module Items {

  datatype Option<T> = None | Some(value: T)

  /** A learning item as the backend returns it. `type` is a keyword here,
      so the item's type is the field `itemType`; `link` and `notes` may be
      absent. */
  datatype LearningItem = LearningItem(
    id: string,
    title: string,
    itemType: string,
    status: string,
    link: Option<string>,
    notes: Option<string>)

  const STARTED: string := "Started"
  const IN_PROGRESS: string := "In Progress"
  const COMPLETED: string := "Completed"

  /** The wildcard value of the status and type filters. */
  const ALL: string := "All"

  const STATUS_OPTIONS: seq<string> := [STARTED, IN_PROGRESS, COMPLETED]
  const TYPE_OPTIONS: seq<string> := ["Course", "Tutorial", "Skill", "Book", "Other"]

  /** Every item's status is one of the three the editor and the list offer. */
  predicate AllKnownStatuses(items: seq<LearningItem>) {
    forall i :: 0 <= i < |items| ==> items[i].status in STATUS_OPTIONS
  }

  /** The attribute a count or a histogram groups by. */
  datatype Attr = Id | Status | Type

  function KeyOf(item: LearningItem, a: Attr): string {
    match a
    case Id => item.id
    case Status => item.status
    case Type => item.itemType
  }

  /** `items.filter(item => item[a] === k).length` */
  function CountBy(items: seq<LearningItem>, a: Attr, k: string): (n: nat)
    ensures n <= |items|
  {
    if items == [] then 0
    else (if KeyOf(items[0], a) == k then 1 else 0) + CountBy(items[1..], a, k)
  }

  /** The count is zero exactly when no item has the key, and is the whole
      list exactly when every item has it. */
  lemma {:induction false} CountByExtremes(items: seq<LearningItem>, a: Attr, k: string)
    ensures CountBy(items, a, k) == 0 <==> forall i :: 0 <= i < |items| ==> KeyOf(items[i], a) != k
    ensures CountBy(items, a, k) == |items| <==> forall i :: 0 <= i < |items| ==> KeyOf(items[i], a) == k
  {
    if items != [] {
      CountByExtremes(items[1..], a, k);
      assert forall i :: 1 <= i < |items| ==> items[i] == items[1..][i - 1];
    }
  }

  /** The keys the items have under `a`. */
  function KeySet(items: seq<LearningItem>, a: Attr): set<string> {
    set i | 0 <= i < |items| :: KeyOf(items[i], a)
  }

  lemma KeySetAppend(items: seq<LearningItem>, item: LearningItem, a: Attr)
    ensures KeySet(items + [item], a) == KeySet(items, a) + {KeyOf(item, a)}
  {
    var xs := items + [item];
    forall k | k in KeySet(xs, a) ensures k in KeySet(items, a) + {KeyOf(item, a)} {
      var i :| 0 <= i < |xs| && KeyOf(xs[i], a) == k;
      if i < |items| {
        assert xs[i] == items[i];
      }
    }
    forall k | k in KeySet(items, a) ensures k in KeySet(xs, a) {
      var i :| 0 <= i < |items| && KeyOf(items[i], a) == k;
      assert xs[i] == items[i];
    }
    assert KeyOf(xs[|items|], a) in KeySet(xs, a);
  }

  /** Counting distributes over concatenation. */
  lemma {:induction false} CountByAppend(xs: seq<LearningItem>, ys: seq<LearningItem>, a: Attr, k: string)
    ensures CountBy(xs + ys, a, k) == CountBy(xs, a, k) + CountBy(ys, a, k)
  {
    if xs == [] {
      assert xs + ys == ys;
    } else {
      assert (xs + ys)[1..] == xs[1..] + ys;
      CountByAppend(xs[1..], ys, a, k);
    }
  }

  /** The three status counts never add up to more than the list, and add
      up to exactly the list when every status is one of the three. */
  lemma {:induction false} StatusCountsPartition(items: seq<LearningItem>)
    ensures CountBy(items, Status, STARTED) + CountBy(items, Status, IN_PROGRESS)
            + CountBy(items, Status, COMPLETED) <= |items|
    ensures AllKnownStatuses(items) ==>
              CountBy(items, Status, STARTED) + CountBy(items, Status, IN_PROGRESS)
              + CountBy(items, Status, COMPLETED) == |items|
  {
    if items != [] {
      StatusCountsPartition(items[1..]);
      assert AllKnownStatuses(items) ==> AllKnownStatuses(items[1..]) by {
        assert forall i :: 0 <= i < |items[1..]| ==> items[1..][i] == items[i + 1];
      }
    }
  }

  /** An exact percentage, kept as the two counts it is computed from. Its
      value is `(part / whole) * 100`, and 0 when `whole` is 0. */
  datatype Percentage = Percentage(part: nat, whole: nat) {
    function Value(): real {
      if whole > 0 then (part as real / whole as real) * 100.0 else 0.0
    }
  }

  /** A part of a whole is a percentage in [0, 100]; it is 100 exactly when
      the part is the whole, and above 0 exactly when the part is. */
  lemma PercentageBounds(p: Percentage)
    requires p.part <= p.whole
    ensures 0.0 <= p.Value() <= 100.0
    ensures p.Value() == 100.0 <==> 0 < p.whole && p.part == p.whole
    ensures p.Value() > 0.0 <==> 0 < p.part
    ensures 0 < p.whole ==> p.Value() * (p.whole as real) == (p.part as real) * 100.0
  {
    if 0 < p.whole {
      var v, w := p.Value(), p.whole as real;
      assert v * w == (p.part as real) * 100.0;
      assert (v - 100.0) * w == (p.part as real - w) * 100.0;
    }
  }

  function SumParts(ps: seq<Percentage>): nat {
    if ps == [] then 0 else ps[0].part + SumParts(ps[1..])
  }

  function SumValues(ps: seq<Percentage>): real {
    if ps == [] then 0.0 else ps[0].Value() + SumValues(ps[1..])
  }

  /** Percentages of one whole add up to the percentage of the sum of their
      parts. */
  lemma {:induction false} SumValuesScaled(ps: seq<Percentage>, whole: nat)
    requires 0 < whole
    requires forall i :: 0 <= i < |ps| ==> ps[i].whole == whole
    ensures SumValues(ps) * (whole as real) == (SumParts(ps) as real) * 100.0
  {
    if ps != [] {
      SumValuesScaled(ps[1..], whole);
      var v := ps[0].Value();
      var rest := SumValues(ps[1..]);
      assert v * (whole as real) == (ps[0].part as real) * 100.0;
      assert (v + rest) * (whole as real) == v * (whole as real) + rest * (whole as real);
    }
  }

  /** Percentages of one whole whose parts make up the whole add up to
      exactly 100. */
  lemma PartitionSumsToHundred(ps: seq<Percentage>, whole: nat)
    requires 0 < whole
    requires forall i :: 0 <= i < |ps| ==> ps[i].whole == whole
    requires SumParts(ps) == whole
    ensures SumValues(ps) == 100.0
  {
    SumValuesScaled(ps, whole);
    HundredPercent(SumValues(ps), SumParts(ps) as real, whole as real);
  }

  lemma HundredPercent(sum: real, parts: real, whole: real)
    requires 0.0 < whole && sum * whole == parts * 100.0 && parts == whole
    ensures sum == 100.0
  {
    assert (sum - 100.0) * whole == 0.0;
  }

  /** No two items of the list share an id; the backend assigns ids. */
  ghost predicate UniqueIds(items: seq<LearningItem>) {
    forall i, j :: 0 <= i < j < |items| ==> items[i].id != items[j].id
  }

  /** With unique ids an id occurs at most once. */
  lemma {:induction false} UniqueIdsCountAtMostOne(items: seq<LearningItem>, id: string)
    requires UniqueIds(items)
    ensures CountBy(items, Id, id) <= 1
  {
    if items != [] {
      var tail := items[1..];
      assert forall i :: 0 <= i < |tail| ==> tail[i] == items[i + 1];
      UniqueIdsCountAtMostOne(tail, id);
      if items[0].id == id {
        CountByExtremes(tail, Id, id);
      }
    }
  }

  /** `sub` is `s` with some elements dropped and the rest kept in order. */
  ghost predicate IsSubsequence<T>(sub: seq<T>, s: seq<T>)
    decreases |s|
  {
    || sub == []
    || (s != [] && ((sub[0] == s[0] && IsSubsequence(sub[1..], s[1..])) || IsSubsequence(sub, s[1..])))
  }

  /** Dropping elements from a list with unique ids keeps the ids unique. */
  lemma {:induction false} SubsequenceKeepsUniqueIds(sub: seq<LearningItem>, s: seq<LearningItem>)
    requires IsSubsequence(sub, s) && UniqueIds(s)
    ensures UniqueIds(sub)
    ensures forall x :: x in sub ==> x in s
    decreases |s|
  {
    if sub != [] {
      assert UniqueIds(s[1..]) by {
        forall i, j | 0 <= i < j < |s[1..]| ensures s[1..][i].id != s[1..][j].id {
          assert s[1..][i] == s[i + 1] && s[1..][j] == s[j + 1];
        }
      }
      if sub[0] == s[0] && IsSubsequence(sub[1..], s[1..]) {
        SubsequenceKeepsUniqueIds(sub[1..], s[1..]);
        forall i, j | 0 <= i < j < |sub| ensures sub[i].id != sub[j].id {
          if i == 0 {
            assert sub[j] == sub[1..][j - 1];
            assert sub[j] in s[1..];
            var m :| 0 <= m < |s[1..]| && s[1..][m] == sub[j];
            assert s[m + 1] == sub[j];
          } else {
            assert sub[i] == sub[1..][i - 1] && sub[j] == sub[1..][j - 1];
          }
        }
        forall x | x in sub ensures x in s {
          if x != sub[0] {
            assert x in sub[1..];
          }
        }
      } else {
        SubsequenceKeepsUniqueIds(sub, s[1..]);
      }
    }
  }
}
