/** The study heatmap: the colour bucket of a day's count, the week-by-day
    grid, the month labels above it and the per-day counts looked up from
    the learning records. Dates are abstract: each day carries its formatted
    `yyyy-MM-dd` key and its year and month. */
module Heatmap {
  import opened Wrappers
  import opened Text
  import Pagination

  /** The five colour classes, from `bg-muted` to `bg-primary`. */
  datatype Shade = Muted | Primary20 | Primary40 | Primary70 | Primary

  function Intensity(s: Shade): (r: nat)
    ensures r <= 4
  {
    match s
    case Muted => 0
    case Primary20 => 1
    case Primary40 => 2
    case Primary70 => 3
    case Primary => 4
  }

  /** `getContributionClassName`. */
  function ShadeOf(count: int): (r: Shade)
    ensures r == Muted <==> count == 0
    ensures r == Primary20 <==> count != 0 && count <= 5
    ensures r == Primary40 <==> 5 < count <= 10
    ensures r == Primary70 <==> 10 < count <= 15
    ensures r == Primary <==> count > 15
  {
    if count == 0 then Muted
    else if count <= 5 then Primary20
    else if count <= 10 then Primary40
    else if count <= 15 then Primary70
    else Primary
  }

  /** More work never gives a lighter cell. */
  lemma ShadeMonotone(a: nat, b: nat)
    requires a <= b
    ensures Intensity(ShadeOf(a)) <= Intensity(ShadeOf(b))
  {
  }

  /** One day of the last year. */
  datatype Day = Day(key: string, year: int, month: nat)

  /** `totalWeeks`: the number of grid columns. */
  function TotalWeeks(n: nat): (r: nat)
    ensures 7 * r >= n && (r > 0 ==> 7 * (r - 1) < n)
  {
    Pagination.TotalPages(n, 7)
  }

  /** The cell in column `week`, row `day`: the day at index 7·week + day, or an
      empty cell past the end. */
  function Cell<T>(data: seq<T>, week: nat, day: nat): (r: Option<T>)
    requires day < 7
    ensures r.Some? <==> 7 * week + day < |data|
    ensures r.Some? ==> r.value == data[7 * week + day]
  {
    var i := 7 * week + day;
    if i < |data| then Some(data[i]) else None
  }

  /** The whole grid: `TotalWeeks` columns of seven cells. */
  function Grid<T>(data: seq<T>): (r: seq<seq<Option<T>>>)
    ensures |r| == TotalWeeks(|data|)
    ensures forall w :: 0 <= w < |r| ==> |r[w]| == 7
    ensures forall w, d :: 0 <= w < |r| && 0 <= d < 7 ==> r[w][d] == Cell(data, w, d)
  {
    seq(TotalWeeks(|data|), w requires w >= 0 => seq(7, d requires 0 <= d < 7 => Cell(data, w, d)))
  }

  /** Every day appears in the grid at column i / 7, row i % 7. */
  lemma EveryDayShown<T>(data: seq<T>, i: nat)
    requires i < |data|
    ensures var g := Grid(data);
            i / 7 < |g| && g[i / 7][i % 7] == Some(data[i])
  {
    var n := TotalWeeks(|data|);
    assert i == 7 * (i / 7) + i % 7;
    assert i / 7 < n;
  }

  /** ... and at no other cell: a filled cell at (w, d) holds day 7·w + d,
      so two different days never share a cell. */
  lemma CellsDistinct<T>(data: seq<T>, w1: nat, d1: nat, w2: nat, d2: nat)
    requires d1 < 7 && d2 < 7 && (w1, d1) != (w2, d2)
    requires 7 * w1 + d1 < |data| && 7 * w2 + d2 < |data|
    ensures 7 * w1 + d1 != 7 * w2 + d2
  {
    if w1 < w2 {
      assert 7 * w1 + d1 < 7 * w2 + d2;
    } else if w2 < w1 {
      assert 7 * w2 + d2 < 7 * w1 + d1;
    }
  }

  // ---------------------------------------------------------------------------
  // Month labels.

  /** A label above the grid: the month's text, `M月`, and its column. */
  datatype MonthLabel = MonthLabel(text: string, weekIndex: nat)

  function LabelFor(d: Day, index: nat): (r: MonthLabel)
    ensures r.weekIndex == index / 7
    ensures r.text == NatToString(d.month) + "\U{6708}"
  {
    MonthLabel(NatToString(d.month) + "\U{6708}", index / 7)
  }

  predicate SameMonth(a: Day, b: Day) {
    a.year == b.year && a.month == b.month
  }

  /** Day i starts a month: it is the first day or its month differs from the
      day before it. */
  predicate StartsMonth(days: seq<Day>, i: nat)
    requires i < |days|
  {
    i == 0 || !SameMonth(days[i - 1], days[i])
  }

  /** The labels of the first k days: one per day that starts a month. */
  function MonthStarts(days: seq<Day>, k: nat): (r: seq<MonthLabel>)
    requires k <= |days|
    ensures |r| <= k
    ensures k > 0 ==> |r| > 0
    ensures forall j :: 0 <= j < |r| ==> r[j].weekIndex <= (k - 1) / 7
  {
    if k == 0 then []
    else
      var before := MonthStarts(days, k - 1);
      if StartsMonth(days, k - 1) then before + [LabelFor(days[k - 1], k - 1)] else before
  }

  /** The scan behind `monthLabels`: it remembers the day that opened the
      current month and emits a label whenever a day is not in that month. */
  method MonthLabels(days: seq<Day>) returns (labels: seq<MonthLabel>)
    ensures labels == MonthStarts(days, |days|)
  {
    labels := [];
    var current: Option<Day> := None;
    var i := 0;
    while i < |days|
      invariant 0 <= i <= |days|
      invariant labels == MonthStarts(days, i)
      invariant current.None? <==> i == 0
      invariant i > 0 ==> SameMonth(current.value, days[i - 1])
    {
      var date := days[i];
      if current.None? || !SameMonth(current.value, date) {
        current := Some(date);
        labels := labels + [LabelFor(date, i)];
      }
      i := i + 1;
    }
  }

  /** Columns that never go backwards. */
  predicate Ordered(labels: seq<MonthLabel>) {
    forall a, b :: 0 <= a < b < |labels| ==> labels[a].weekIndex <= labels[b].weekIndex
  }

  /** The label columns never go backwards. */
  lemma {:induction false} LabelsOrdered(days: seq<Day>, k: nat)
    requires k <= |days|
    ensures Ordered(MonthStarts(days, k))
  {
    if k > 0 {
      LabelsOrdered(days, k - 1);
      var before := MonthStarts(days, k - 1);
      if StartsMonth(days, k - 1) {
        var last := LabelFor(days[k - 1], k - 1);
        assert MonthStarts(days, k) == before + [last];
        AppendOrdered(before, last);
      }
    }
  }

  /** Appending a label whose column is at least that of every earlier one
      keeps the labels ordered. */
  lemma AppendOrdered(before: seq<MonthLabel>, last: MonthLabel)
    requires Ordered(before)
    requires forall j :: 0 <= j < |before| ==> before[j].weekIndex <= last.weekIndex
    ensures Ordered(before + [last])
  {
    var r := before + [last];
    forall a, b | 0 <= a < b < |r| ensures r[a].weekIndex <= r[b].weekIndex {
      assert r[a] == before[a];
      if b < |before| {
        assert r[b] == before[b];
      }
    }
  }

  /** Every label sits over a column of the grid. */
  lemma LabelsInGrid(days: seq<Day>)
    ensures var r := MonthStarts(days, |days|);
            forall j :: 0 <= j < |r| ==> r[j].weekIndex < TotalWeeks(|days|)
  {
  }

  // ---------------------------------------------------------------------------
  // Per-day counts.

  /** A learning record: the day it was written and the questions added and
      reviewed that day. */
  datatype Record = Record(dateKey: string, questionCount: nat, reviewCount: nat)

  /** The `Map` built from the records: entries go in in order, so a later
      record for the same day overwrites an earlier one. */
  function CountMap(records: seq<Record>): (m: map<string, nat>)
    ensures forall key :: key in m <==> exists j :: 0 <= j < |records| && records[j].dateKey == key
  {
    if records == [] then map[]
    else
      var last := records[|records| - 1];
      var m := CountMap(records[..|records| - 1]);
      assert forall j :: 0 <= j < |records| - 1 ==> records[..|records| - 1][j] == records[j];
      m[last.dateKey := last.questionCount + last.reviewCount]
  }

  /** The total of the last record for `key`, looked for from the end. */
  function LastCount(records: seq<Record>, key: string): (r: Option<nat>)
    ensures r.None? <==> forall j :: 0 <= j < |records| ==> records[j].dateKey != key
  {
    if records == [] then None
    else
      var last := records[|records| - 1];
      if last.dateKey == key then Some(last.questionCount + last.reviewCount)
      else
        assert forall j :: 0 <= j < |records| - 1 ==> records[..|records| - 1][j] == records[j];
        LastCount(records[..|records| - 1], key)
  }

  /** The map holds, for each day, the record that came last. */
  lemma {:induction false} CountMapIsLast(records: seq<Record>, key: string)
    ensures key in CountMap(records) <==> LastCount(records, key).Some?
    ensures key in CountMap(records) ==> CountMap(records)[key] == LastCount(records, key).value
  {
    if records != [] {
      CountMapIsLast(records[..|records| - 1], key);
    }
  }

  /** `contributionData`'s counts: zero everywhere while loading or without
      data, else each day's entry in the map, with a missing day as 0. */
  function DayCounts(days: seq<Day>, loading: bool, records: Option<seq<Record>>): (r: seq<nat>)
    ensures |r| == |days|
    ensures loading || records.None? ==> forall i :: 0 <= i < |r| ==> r[i] == 0
  {
    if loading || records.None? then seq(|days|, i => 0)
    else
      var m := CountMap(records.value);
      seq(|days|, i requires 0 <= i < |days| => if days[i].key in m then m[days[i].key] else 0)
  }

  /** Each day's count is that of the last record written on that day, and 0
      when no record matches. */
  lemma DayCountIsLastRecord(days: seq<Day>, records: seq<Record>, i: nat)
    requires i < |days|
    ensures DayCounts(days, false, Some(records))[i] == LastCount(records, days[i].key).GetOr(0)
  {
    CountMapIsLast(records, days[i].key);
  }

  /** A later record for the same day replaces an earlier one. */
  lemma LaterRecordWins(days: seq<Day>, records: seq<Record>, r: Record, i: nat)
    requires i < |days| && r.dateKey == days[i].key
    ensures DayCounts(days, false, Some(records + [r]))[i] == r.questionCount + r.reviewCount
  {
    DayCountIsLastRecord(days, records + [r], i);
  }
}
