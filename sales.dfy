/** The time dimension record and the sale aggregator (sus.py:100-126):
    sale rows are grouped by date, product id and member id; the first row
    of a group is kept with quantity 1 and gets its time record, every later
    row of the group adds one to the quantity. */
module Sales {
  import opened Base
  import opened Text
  import opened Tables
  import opened Builders
  import opened Grouping

  /** A sale.csv row; only the fields the script reads. The price is kept
      as text: the script passes it to the fact table unconverted. */
  datatype SaleRow = SaleRow(timestamp: string, productId: string, memberId: string, price: string)

  /** time_dim's attributes (sus.py:32). */
  datatype TimeAttrs = TimeAttrs(year: int, quarter: int, month: int, day: int)

  /** A group of identical sale line items: its first row, how many rows
      fell into it, and the time record made for it. */
  type SaleGroup = Group<SaleRow, Entry<TimeAttrs>>

  /** timeSalesDict: the groups by key, with the keys in insertion order
      (the order in which the dictionary is later iterated). */
  type SalesDict = Grouped<string, SaleRow, Entry<TimeAttrs>>

  // ---------------------------------------------------------------- time records

  /** `(month - 1) // 3 + 1`. Python's `//` floors; with the positive divisor 3
      that is Dafny's `/`. Months outside 1..12 are not rejected. */
  function Quarter(month: int): (q: int)
    ensures 3 * (q - 1) <= month - 1 < 3 * q
    ensures 1 <= month <= 12 ==> 1 <= q <= 4
  {
    (month - 1) / 3 + 1
  }

  lemma QuarterMonotone(m1: int, m2: int)
    requires m1 <= m2
    ensures Quarter(m1) <= Quarter(m2)
  {
  }

  lemma QuarterOfMonth(m: int)
    requires 1 <= m <= 12
    ensures 1 <= m <= 3 <==> Quarter(m) == 1
    ensures 4 <= m <= 6 <==> Quarter(m) == 2
    ensures 7 <= m <= 9 <==> Quarter(m) == 3
    ensures 10 <= m <= 12 <==> Quarter(m) == 4
  {
  }

  /** The fields of a time record from the three date parts (sus.py:121-124),
      parsed in the script's order: year, month, day. */
  function TimeAttrsOf(date: seq<string>): (r: Result<TimeAttrs>)
    requires |date| >= 3
    ensures r.Ok? <==> ParseInt(date[0]).Some? && ParseInt(date[1]).Some? && ParseInt(date[2]).Some?
    ensures r.Ok? ==> && r.value.year == ParseInt(date[0]).value
                      && r.value.month == ParseInt(date[1]).value
                      && r.value.day == ParseInt(date[2]).value
                      && r.value.quarter == Quarter(r.value.month)
  {
    match Int(date[0])
    case Err(e) => Err(e)
    case Ok(year) =>
      match Int(date[1])
      case Err(e) => Err(e)
      case Ok(month) =>
        match Int(date[2])
        case Err(e) => Err(e)
        case Ok(day) => Ok(TimeAttrs(year, Quarter(month), month, day))
  }

  /** CreateTimeDim as a function of the time dimension's state. */
  function TimeEntry(s: DimState<TimeAttrs>, date: seq<string>): Result<(DimState<TimeAttrs>, Entry<TimeAttrs>)>
    requires |date| >= 3
  {
    match TimeAttrsOf(date)
    case Err(e) => Err(e)
    case Ok(t) =>
      var (s1, key) := Ensured(s, t);
      Ok((s1, Entry(t, key)))
  }

  /** The time record's fields are the parsed date parts and its key is the
      one the time dimension holds for them. */
  lemma TimeEntryFields(s: DimState<TimeAttrs>, date: seq<string>)
    requires |date| >= 3
    requires TimeEntry(s, date).Ok?
    ensures var (s', e) := TimeEntry(s, date).value;
            && TimeAttrsOf(date) == Ok(e.attrs)
            && e.attrs.year == ParseInt(date[0]).value
            && e.attrs.month == ParseInt(date[1]).value
            && e.attrs.day == ParseInt(date[2]).value
            && EnsureStep(s, s', e)
  {
  }

  /** CreateTimeDim (sus.py:119-126). */
  method CreateTimeDim(timeDim: Dimension<TimeAttrs>, date: seq<string>) returns (r: Result<Entry<TimeAttrs>>)
    requires |date| >= 3
    requires timeDim.Valid()
    modifies timeDim
    ensures timeDim.Valid()
    ensures r.Ok? <==> TimeEntry(old(timeDim.State()), date).Ok?
    ensures r.Ok? ==> TimeEntry(old(timeDim.State()), date) == Ok((timeDim.State(), r.value))
    ensures r.Err? ==> r.error == TimeEntry(old(timeDim.State()), date).error && timeDim.State() == old(timeDim.State())
  {
    var attrs := TimeAttrsOf(date);
    if attrs.Err? {
      return Err(attrs.error);
    }
    var key := timeDim.Ensure(attrs.value);
    r := Ok(Entry(attrs.value, key));
  }

  // ---------------------------------------------------------------- grouping keys

  /** `row['timestamp'].split(" ")[0].split("-")`. */
  function SaleDate(row: SaleRow): seq<string> {
    Split(Split(row.timestamp, ' ')[0], '-')
  }

  /** No date part contains '-'. */
  lemma SaleDateDashFree(row: SaleRow)
    ensures forall i :: 0 <= i < |SaleDate(row)| ==> '-' !in SaleDate(row)[i]
  {
    SplitPiecesFree(Split(row.timestamp, ' ')[0], '-');
  }

  /** The f-string key of sus.py:106. */
  function GroupKey(date: seq<string>, row: SaleRow): string
    requires |date| >= 3
  {
    date[0] + "-" + date[1] + "-" + date[2] + "-" + row.productId + "-" + row.memberId
  }

  /** The key is the five parts joined by '-'. */
  lemma GroupKeyIsJoin(date: seq<string>, row: SaleRow)
    requires |date| >= 3
    ensures GroupKey(date, row) == Join([date[0], date[1], date[2], row.productId, row.memberId], '-')
  {
    var parts := [date[0], date[1], date[2], row.productId, row.memberId];
    var j3 := row.productId + "-" + row.memberId;
    var j2 := date[2] + "-" + j3;
    var j1 := date[1] + "-" + j2;
    assert parts[3..][1..] == parts[4..];
    assert Join(parts[3..], '-') == j3;
    assert parts[2..][1..] == parts[3..];
    assert Join(parts[2..], '-') == j2;
    assert parts[1..][1..] == parts[2..];
    assert Join(parts[1..], '-') == j1;
    assert GroupKey(date, row) == date[0] + "-" + j1;
  }

  /** Equal keys mean equal dates, whatever the ids hold: date parts never
      contain '-', so the first three pieces of the key are the date. */
  lemma KeyDeterminesDate(d1: seq<string>, r1: SaleRow, d2: seq<string>, r2: SaleRow)
    requires |d1| >= 3 && |d2| >= 3
    requires forall i :: 0 <= i < 3 ==> '-' !in d1[i] && '-' !in d2[i]
    requires GroupKey(d1, r1) == GroupKey(d2, r2)
    ensures d1[..3] == d2[..3]
  {
    var split1 := KeyPieces(d1, r1);
    var split2 := KeyPieces(d2, r2);
  }

  /** The first three pieces of a key are its date parts. */
  lemma KeyPieces(d: seq<string>, r: SaleRow) returns (pieces: seq<string>)
    requires |d| >= 3
    requires forall i :: 0 <= i < 3 ==> '-' !in d[i]
    ensures pieces == Split(GroupKey(d, r), '-')
    ensures |pieces| >= 3 && pieces[..3] == d[..3]
  {
    var tail := r.productId + "-" + r.memberId;
    assert GroupKey(d, r) == d[0] + ['-'] + (d[1] + ['-'] + (d[2] + ['-'] + tail));
    SplitCons(d[0], '-', d[1] + ['-'] + (d[2] + ['-'] + tail));
    SplitCons(d[1], '-', d[2] + ['-'] + tail);
    SplitCons(d[2], '-', tail);
    pieces := Split(GroupKey(d, r), '-');
    assert pieces == [d[0], d[1], d[2]] + Split(tail, '-');
  }

  /** When neither id contains '-', the key identifies date, product and member. */
  lemma GroupKeyInjective(d1: seq<string>, r1: SaleRow, d2: seq<string>, r2: SaleRow)
    requires |d1| >= 3 && |d2| >= 3
    requires forall i :: 0 <= i < 3 ==> '-' !in d1[i] && '-' !in d2[i]
    requires '-' !in r1.productId && '-' !in r1.memberId && '-' !in r2.productId && '-' !in r2.memberId
    requires GroupKey(d1, r1) == GroupKey(d2, r2)
    ensures d1[..3] == d2[..3] && r1.productId == r2.productId && r1.memberId == r2.memberId
  {
    var p1 := [d1[0], d1[1], d1[2], r1.productId, r1.memberId];
    var p2 := [d2[0], d2[1], d2[2], r2.productId, r2.memberId];
    GroupKeyIsJoin(d1, r1);
    GroupKeyIsJoin(d2, r2);
    SplitJoin(p1, '-');
    SplitJoin(p2, '-');
    assert p1 == p2;
  }

  /** Ids that contain '-' can collide: product "1-2" bought by member "3"
      and product "1" bought by member "2-3" share a key. */
  lemma GroupKeyCollision(date: seq<string>, timestamp: string, price: string)
    requires |date| >= 3
    ensures GroupKey(date, SaleRow(timestamp, "1-2", "3", price)) == GroupKey(date, SaleRow(timestamp, "1", "2-3", price))
  {
    assert "1-2" + "-" + "3" == "1" + "-" + "2-3";
  }

  /** A timestamp "year-month-day time" with digit parts has those three
      parts as its date. */
  lemma DigitsDateOf(row: SaleRow, year: string, month: string, day: string, time: string)
    requires |year| >= 1 && AllDigits(year) && |month| >= 1 && AllDigits(month) && |day| >= 1 && AllDigits(day)
    requires row.timestamp == year + "-" + month + "-" + day + " " + time
    ensures SaleDate(row) == [year, month, day]
  {
    var text := year + "-" + month + "-" + day;
    assert Join([year, month, day], '-') == text by {
      assert [year, month, day][1..] == [month, day] && [month, day][1..] == [day];
      assert Join([month, day], '-') == month + "-" + day;
      assert year + "-" + (month + "-" + day) == text;
    }
    assert row.timestamp == text + [' '] + time;
    DigitsFree(year, ' ');
    DigitsFree(month, ' ');
    DigitsFree(day, ' ');
    assert ' ' !in text;
    DigitsFree(year, '-');
    DigitsFree(month, '-');
    DigitsFree(day, '-');
    SaleDateOf(row, text, time, [year, month, day]);
  }

  /** Digit text holds no separator other than a digit. */
  lemma DigitsFree(d: string, c: char)
    requires AllDigits(d) && !IsDigit(c)
    ensures c !in d
  {
    assert forall i :: 0 <= i < |d| ==> IsDigit(d[i]);
  }

  /** The date of a timestamp "day time" is the '-'-pieces of day. */
  lemma SaleDateOf(row: SaleRow, day: string, time: string, parts: seq<string>)
    requires row.timestamp == day + [' '] + time && ' ' !in day
    requires |parts| >= 1 && (forall i :: 0 <= i < |parts| ==> '-' !in parts[i])
    requires Join(parts, '-') == day
    ensures SaleDate(row) == parts
  {
    SplitCons(day, ' ', time);
    SplitJoin(parts, '-');
  }

  /** The key holds the date's text, not its value: a month written with a
      leading zero and without one gives two groups, though both dates have
      the same time_dim attributes. */
  lemma GroupKeyDateSpelling(year: string, month: string, day: string, time1: string, time2: string,
                             productId: string, memberId: string, price: string)
    requires |year| >= 1 && AllDigits(year) && |month| >= 1 && AllDigits(month) && |day| >= 1 && AllDigits(day)
    ensures var r1 := SaleRow(year + "-0" + month + "-" + day + " " + time1, productId, memberId, price);
            var r2 := SaleRow(year + "-" + month + "-" + day + " " + time2, productId, memberId, price);
            && SaleDate(r1) == [year, "0" + month, day] && SaleDate(r2) == [year, month, day]
            && GroupKey(SaleDate(r1), r1) != GroupKey(SaleDate(r2), r2)
            && TimeAttrsOf(SaleDate(r1)) == TimeAttrsOf(SaleDate(r2))
            && TimeAttrsOf(SaleDate(r1)).Ok?
  {
    var padded := "0" + month;
    var r1 := SaleRow(year + "-0" + month + "-" + day + " " + time1, productId, memberId, price);
    var r2 := SaleRow(year + "-" + month + "-" + day + " " + time2, productId, memberId, price);
    DigitsDateOf(r1, year, padded, day, time1);
    DigitsDateOf(r2, year, month, day, time2);
    assert |GroupKey(SaleDate(r1), r1)| == |GroupKey(SaleDate(r2), r2)| + 1;
    LeadingZero(month);
    ParseIntDigits(padded);
    ParseIntDigits(month);
    ParseIntDigits(year);
    ParseIntDigits(day);
  }

  // ---------------------------------------------------------------- the aggregation

  /** A row's grouping key, or the error the script raises when its date
      has fewer than three parts (the index on sus.py:106 fails). */
  function SaleKey(row: SaleRow): (r: Result<string>)
    ensures r.Ok? <==> |SaleDate(row)| >= 3
    ensures r.Err? ==> r.error == DateIndex(row.timestamp)
  {
    var date := SaleDate(row);
    if |date| < 3 then Err(DateIndex(row.timestamp)) else Ok(GroupKey(date, row))
  }

  /** What the script does for the first row of a group: CreateTimeDim on
      the row's date (sus.py:111). */
  function FirstTime(s: DimState<TimeAttrs>, row: SaleRow): Result<(DimState<TimeAttrs>, Entry<TimeAttrs>)> {
    var date := SaleDate(row);
    if |date| < 3 then Err(DateIndex(row.timestamp)) else TimeEntry(s, date)
  }

  /** A row whose date has three parts that all parse. */
  predicate DateParses(row: SaleRow) {
    |SaleDate(row)| >= 3 && TimeAttrsOf(SaleDate(row)).Ok?
  }

  /** What CreateSalesForTime computes over `sales`, from time dimension
      state `s`: the new state and timeSalesDict, or the first error. */
  function Aggregate(s: DimState<TimeAttrs>, sales: seq<SaleRow>): Result<(DimState<TimeAttrs>, SalesDict)> {
    GroupRows(s, sales, SaleKey, FirstTime)
  }

  /** The time attributes of a run of time records. */
  function AttrsOf(recs: seq<Entry<TimeAttrs>>): (attrs: seq<TimeAttrs>)
    ensures |attrs| == |recs|
    decreases |recs|
  {
    if |recs| == 0 then [] else AttrsOf(recs[..|recs| - 1]) + [recs[|recs| - 1].attrs]
  }

  /** What CreateTimeDim does on a group's first row, taking the time
      dimension from `s` to `s'` and producing the time record `e`. */
  predicate TimeStep(s: DimState<TimeAttrs>, row: SaleRow, s': DimState<TimeAttrs>, e: Entry<TimeAttrs>) {
    DateOf(row, e) && EnsureStep(s, s', e)
  }


  /** The first-occurrence action of the aggregation does that. */
  lemma FirstTimeStep(s: DimState<TimeAttrs>, row: SaleRow)
    requires FirstTime(s, row).Ok?
    ensures TimeStep(s, row, FirstTime(s, row).value.0, FirstTime(s, row).value.1)
  {
    TimeEntryFields(s, SaleDate(row));
  }

  /** An action that always does what CreateTimeDim does. */
  ghost predicate TimeAction(f: (DimState<TimeAttrs>, SaleRow) -> Result<(DimState<TimeAttrs>, Entry<TimeAttrs>)>) {
    forall s, r :: f(s, r).Ok? ==> TimeStep(s, r, f(s, r).value.0, f(s, r).value.1)
  }

  lemma FirstTimeIsTimeAction()
    ensures TimeAction(FirstTime)
  {
    forall s, r | FirstTime(s, r).Ok?
      ensures TimeStep(s, r, FirstTime(s, r).value.0, FirstTime(s, r).value.1)
    {
      FirstTimeStep(s, r);
    }
  }

  /** Running such an action over rows in turn makes one record per row and
      sends the time dimension one request per row, in order ... */
  lemma {:induction false} RunTimesRequests(s: DimState<TimeAttrs>, rows: seq<SaleRow>, f: (DimState<TimeAttrs>, SaleRow) -> Result<(DimState<TimeAttrs>, Entry<TimeAttrs>)>)
    requires TimeAction(f)
    requires RunFirsts(s, rows, f).Ok?
    ensures var (s', recs) := RunFirsts(s, rows, f).value;
            && |recs| == |rows|
            && s'.requests == s.requests + AttrsOf(recs)
    decreases |rows|
  {
    if |rows| > 0 {
      var n := |rows| - 1;
      RunFirstsLast(s, rows, f);
      RunTimesRequests(s, rows[..n], f);
      var (s1, recs1) := RunFirsts(s, rows[..n], f).value;
      var (s2, rec) := f(s1, rows[n]).value;
      assert TimeStep(s1, rows[n], s2, rec);
      assert (recs1 + [rec])[..n] == recs1;
      assert AttrsOf(recs1 + [rec]) == AttrsOf(recs1) + [rec.attrs];
      assert s2.requests == s.requests + AttrsOf(recs1) + [rec.attrs];
    }
  }

  /** ... keeps the time dimension well formed and every key it held ... */
  lemma {:induction false} RunTimesWellFormed(s: DimState<TimeAttrs>, rows: seq<SaleRow>, f: (DimState<TimeAttrs>, SaleRow) -> Result<(DimState<TimeAttrs>, Entry<TimeAttrs>)>)
    requires TimeAction(f)
    requires WellFormed(s)
    requires RunFirsts(s, rows, f).Ok?
    ensures WellFormed(RunFirsts(s, rows, f).value.0)
    ensures var s' := RunFirsts(s, rows, f).value.0;
            forall a :: a in s.keys ==> a in s'.keys && s'.keys[a] == s.keys[a]
    decreases |rows|
  {
    if |rows| > 0 {
      var n := |rows| - 1;
      RunFirstsLast(s, rows, f);
      RunTimesWellFormed(s, rows[..n], f);
      var s1 := RunFirsts(s, rows[..n], f).value.0;
      assert TimeStep(s1, rows[n], f(s1, rows[n]).value.0, f(s1, rows[n]).value.1);
    }
  }

  /** A time record whose fields are its row's parsed date. */
  predicate DateOf(row: SaleRow, e: Entry<TimeAttrs>) {
    |SaleDate(row)| >= 3 && TimeAttrsOf(SaleDate(row)) == Ok(e.attrs)
  }

  /** Every record the aggregation's first-occurrence action makes is its
      row's parsed date. */
  lemma FirstTimeDates()
    ensures forall s, r :: FirstTime(s, r).Ok? ==> DateOf(r, FirstTime(s, r).value.1)
  {
    forall s, r | FirstTime(s, r).Ok?
      ensures DateOf(r, FirstTime(s, r).value.1)
    {
      FirstTimeStep(s, r);
    }
  }

  /** ... and gives each record the key the dimension ends up holding for
      its fields. */
  lemma {:induction false} RunTimesKeyed(s: DimState<TimeAttrs>, rows: seq<SaleRow>, f: (DimState<TimeAttrs>, SaleRow) -> Result<(DimState<TimeAttrs>, Entry<TimeAttrs>)>)
    requires TimeAction(f)
    requires RunFirsts(s, rows, f).Ok?
    ensures var (s', recs) := RunFirsts(s, rows, f).value;
            forall j :: 0 <= j < |recs| ==> recs[j].attrs in s'.keys && s'.keys[recs[j].attrs] == recs[j].key
    decreases |rows|
  {
    if |rows| > 0 {
      var n := |rows| - 1;
      RunFirstsLast(s, rows, f);
      RunTimesKeyed(s, rows[..n], f);
      var (s1, recs1) := RunFirsts(s, rows[..n], f).value;
      var (s2, rec) := f(s1, rows[n]).value;
      assert TimeStep(s1, rows[n], s2, rec);
      var recs := recs1 + [rec];
      forall j | 0 <= j < |recs|
        ensures recs[j].attrs in s2.keys && s2.keys[recs[j].attrs] == recs[j].key
      {
        if j < |recs1| {
          assert recs1[j] == recs[j];
        } else {
          assert recs[j] == rec;
        }
      }
    }
  }

  /** The run of CreateTimeDim over the groups' rows, in key order, that
      the aggregation performs. */
  lemma AggregateRun(s: DimState<TimeAttrs>, sales: seq<SaleRow>)
    requires WellFormed(s)
    requires Aggregate(s, sales).Ok?
    ensures var (s', d) := Aggregate(s, sales).value;
            && OrderMatches(d)
            && WellFormed(s')
            && s'.requests == s.requests + AttrsOf(RecordsInOrder(d.order, d.groups))
            && forall j :: 0 <= j < |d.order| ==>
                 var e := RecordsInOrder(d.order, d.groups)[j];
                 DateOf(RowsInOrder(d.order, d.groups)[j], e) && e.attrs in s'.keys && s'.keys[e.attrs] == e.key
  {
    GroupRunsFirsts(s, sales, SaleKey, FirstTime);
    var d := Aggregate(s, sales).value.1;
    var rows := RowsInOrder(d.order, d.groups);
    FirstTimeIsTimeAction();
    RunTimesRequests(s, rows, FirstTime);
    RunTimesWellFormed(s, rows, FirstTime);
    FirstTimeDates();
    RunFirstsEach(s, rows, FirstTime, DateOf);
    RunTimesKeyed(s, rows, FirstTime);
  }

  /** Each group's time record is built from its stored row's date and keyed
      by the time dimension, and the dimension received exactly one request
      per group, in the order the groups were first seen. */
  lemma AggregateTime(s: DimState<TimeAttrs>, sales: seq<SaleRow>)
    requires WellFormed(s)
    requires Aggregate(s, sales).Ok?
    ensures var (s', d) := Aggregate(s, sales).value;
            && WellFormed(s')
            && OrderMatches(d)
            && s'.requests == s.requests + AttrsOf(RecordsInOrder(d.order, d.groups))
            && forall k :: k in d.groups ==>
                 && DateOf(d.groups[k].row, d.groups[k].record)
                 && d.groups[k].record.attrs in s'.keys && s'.keys[d.groups[k].record.attrs] == d.groups[k].record.key
  {
    AggregateRun(s, sales);
    var (s', d) := Aggregate(s, sales).value;
    forall k | k in d.groups
      ensures DateOf(d.groups[k].row, d.groups[k].record)
      ensures d.groups[k].record.attrs in s'.keys && s'.keys[d.groups[k].record.attrs] == d.groups[k].record.key
    {
      var j :| 0 <= j < |d.order| && d.order[j] == k;
      assert RowsInOrder(d.order, d.groups)[j] == d.groups[k].row;
      assert RecordsInOrder(d.order, d.groups)[j] == d.groups[k].record;
    }
  }

  /** Rows with the same key have the same first three date parts. */
  lemma SameKeySameDate(r1: SaleRow, r2: SaleRow)
    requires SaleKey(r1).Ok? && SaleKey(r1) == SaleKey(r2)
    ensures SaleDate(r1)[..3] == SaleDate(r2)[..3]
  {
    SaleDateDashFree(r1);
    SaleDateDashFree(r2);
    KeyDeterminesDate(SaleDate(r1), r1, SaleDate(r2), r2);
  }

  /** Rows with the same key agree on whether their date parses. */
  lemma SameKeySameParse()
    ensures forall r1, r2 :: SaleKey(r1).Ok? && SaleKey(r1) == SaleKey(r2) ==> DateParses(r1) == DateParses(r2)
  {
    forall r1, r2 | SaleKey(r1).Ok? && SaleKey(r1) == SaleKey(r2)
      ensures DateParses(r1) == DateParses(r2)
    {
      SameKeySameDate(r1, r2);
      var d1, d2 := SaleDate(r1), SaleDate(r2);
      assert d1[0] == d1[..3][0] == d2[..3][0] == d2[0];
      assert d1[1] == d1[..3][1] == d2[..3][1] == d2[1];
      assert d1[2] == d1[..3][2] == d2[..3][2] == d2[2];
    }
  }

  /** The aggregation succeeds exactly when every timestamp has three date
      parts that all parse as integers. */
  lemma AggregateOk(s: DimState<TimeAttrs>, sales: seq<SaleRow>)
    ensures Aggregate(s, sales).Ok? <==> forall i :: 0 <= i < |sales| ==> DateParses(sales[i])
  {
    SameKeySameParse();
    GroupOk(s, sales, SaleKey, FirstTime, DateParses);
  }

  /** A failing aggregation reports its first row whose date does not
      parse: the index error when the date has fewer than three parts,
      otherwise the error of int() on the first bad part. */
  lemma AggregateFirstError(s: DimState<TimeAttrs>, sales: seq<SaleRow>) returns (i: nat)
    requires Aggregate(s, sales).Err?
    ensures i < |sales| && !DateParses(sales[i])
    ensures forall j :: 0 <= j < i ==> DateParses(sales[j])
    ensures Aggregate(s, sales).error ==
              if |SaleDate(sales[i])| < 3 then DateIndex(sales[i].timestamp) else TimeAttrsOf(SaleDate(sales[i])).error
  {
    SameKeySameParse();
    var st1;
    i, st1 := GroupFirstError(s, sales, SaleKey, FirstTime, DateParses);
  }

  // ---------------------------------------------------------------- the loop

  /** One loop iteration on a row whose key is new: its group is stored
      with quantity 1 and the time record CreateTimeDim made. */
  lemma AggregateNewKey(s: DimState<TimeAttrs>, sales: seq<SaleRow>, i: nat, st: DimState<TimeAttrs>, d: SalesDict, st': DimState<TimeAttrs>, t: Entry<TimeAttrs>)
    requires i < |sales| && |SaleDate(sales[i])| >= 3
    requires Aggregate(s, sales[..i]) == Ok((st, d))
    requires GroupKey(SaleDate(sales[i]), sales[i]) !in d.groups
    requires TimeEntry(st, SaleDate(sales[i])) == Ok((st', t))
    ensures var key := GroupKey(SaleDate(sales[i]), sales[i]);
            Aggregate(s, sales[..i + 1]) == Ok((st', Grouped(d.order + [key], d.groups[key := Group(sales[i], 1, t)])))
  {
    assert sales[..i + 1][..i] == sales[..i];
  }

  /** One loop iteration on a row whose key is known: its group gains one. */
  lemma AggregateKnownKey(s: DimState<TimeAttrs>, sales: seq<SaleRow>, i: nat, st: DimState<TimeAttrs>, d: SalesDict)
    requires i < |sales| && |SaleDate(sales[i])| >= 3
    requires Aggregate(s, sales[..i]) == Ok((st, d))
    requires GroupKey(SaleDate(sales[i]), sales[i]) in d.groups
    ensures var key := GroupKey(SaleDate(sales[i]), sales[i]);
            var g := d.groups[key];
            Aggregate(s, sales[..i + 1]) == Ok((st, Grouped(d.order, d.groups[key := g.(quantity := g.quantity + 1)])))
  {
    assert sales[..i + 1][..i] == sales[..i];
  }

  /** A loop iteration that fails ends the whole aggregation with its error:
      the row's date has too few parts, or its key is new and the date does
      not parse. */
  lemma AggregateFails(s: DimState<TimeAttrs>, sales: seq<SaleRow>, i: nat, st: DimState<TimeAttrs>, d: SalesDict, e: Error)
    requires i < |sales|
    requires Aggregate(s, sales[..i]) == Ok((st, d))
    requires || (|SaleDate(sales[i])| < 3 && e == DateIndex(sales[i].timestamp))
             || (&& |SaleDate(sales[i])| >= 3
                 && GroupKey(SaleDate(sales[i]), sales[i]) !in d.groups
                 && TimeEntry(st, SaleDate(sales[i])) == Err(e))
    ensures Aggregate(s, sales) == Err(e)
  {
    assert sales[..i + 1][..i] == sales[..i];
    GroupErrSticky(s, sales, i + 1, SaleKey, FirstTime);
  }

  /** CreateSalesForTime (sus.py:100-115). When a timestamp is malformed the
      run aborts and nothing is committed, so the time dimension is then only
      promised to stay consistent. */
  method CreateSalesForTime(timeDim: Dimension<TimeAttrs>, sales: seq<SaleRow>) returns (r: Result<SalesDict>)
    requires timeDim.Valid()
    modifies timeDim
    ensures timeDim.Valid()
    ensures r.Ok? <==> Aggregate(old(timeDim.State()), sales).Ok?
    ensures r.Ok? ==> Aggregate(old(timeDim.State()), sales) == Ok((timeDim.State(), r.value))
    ensures r.Err? ==> r.error == Aggregate(old(timeDim.State()), sales).error
  {
    var order: seq<string> := [];
    var groups: map<string, SaleGroup> := map[];
    var i := 0;
    ghost var s0 := timeDim.State();
    while i < |sales|
      invariant 0 <= i <= |sales|
      invariant timeDim.Valid()
      invariant Aggregate(s0, sales[..i]) == Ok((timeDim.State(), Grouped(order, groups)))
    {
      var row := sales[i];
      var date := SaleDate(row);
      if |date| < 3 {
        AggregateFails(s0, sales, i, timeDim.State(), Grouped(order, groups), DateIndex(row.timestamp));
        return Err(DateIndex(row.timestamp));
      }
      var key := GroupKey(date, row);
      if key !in groups {
        ghost var st := timeDim.State();
        var t := CreateTimeDim(timeDim, date);
        if t.Err? {
          AggregateFails(s0, sales, i, st, Grouped(order, groups), t.error);
          return Err(t.error);
        }
        AggregateNewKey(s0, sales, i, st, Grouped(order, groups), timeDim.State(), t.value);
        order := order + [key];
        groups := groups[key := Group(row, 1, t.value)];
      } else {
        AggregateKnownKey(s0, sales, i, timeDim.State(), Grouped(order, groups));
        groups := groups[key := groups[key].(quantity := groups[key].quantity + 1)];
      }
      i := i + 1;
    }
    assert sales[..i] == sales;
    r := Ok(Grouped(order, groups));
  }
}
