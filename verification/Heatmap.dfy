/** The yearly heatmap of reboots: one cell for each day, folded from counts by date. */
module Heatmap {
  import opened Calendar
  import opened Common
  import opened Digits
  import StartupLog
  import StartupLogLaws

  // ---------------------------------------------------------------- the text of a date

  function TwoDigits(n: nat): string {
    if n < 10 then "0" + Decimal(n) else Decimal(n)
  }

  function Padded(s: string): string
    decreases 4 - |s|
  {
    if |s| >= 4 then s else Padded("0" + s)
  }

  function YearText(year: int): string {
    if year < 0 then "-" + Padded(Decimal(-year)) else Padded(Decimal(year))
  }

  /** The key "2006-01-02" of a date. */
  function Key(d: Date): string
    requires Valid(d)
  {
    YearText(d.year) + "-" + TwoDigits(d.month) + "-" + TwoDigits(d.day)
  }

  const WEEKDAYS := ["Sun", "Mon", "Tue", "Wed", "Thu", "Fri", "Sat"]
  const MONTHS := ["Jan", "Feb", "Mar", "Apr", "May", "Jun", "Jul", "Aug", "Sep", "Oct", "Nov", "Dec"]

  function Caption(d: Date): string
    requires Valid(d)
  {
    WEEKDAYS[Weekday(d)] + " " + TwoDigits(d.day) + " " + MONTHS[d.month - 1] + " " + YearText(d.year)
  }

  lemma TwoDigitsDiffer(m: nat, n: nat)
    requires m < 100 && n < 100
    ensures |TwoDigits(m)| == 2
    ensures TwoDigits(m) == TwoDigits(n) ==> m == n
  {
    ValueTwoDigits(m);
    ValueTwoDigits(n);
  }

  lemma ValueTwoDigits(n: nat)
    requires n < 100
    ensures |TwoDigits(n)| == 2 && AllDigits(TwoDigits(n)) && Value(TwoDigits(n)) == n
  {
    var ds := TwoDigits(n);
    ValueDecimal(n);
    if n < 10 {
      assert ds[..1] == "0" && "0"[..0] == "" && Value("0") == 0;
    }
  }

  /** Dates of one year have different keys. */
  lemma KeyIdentifies(d: Date, e: Date)
    requires Valid(d) && Valid(e) && d.year == e.year && Key(d) == Key(e)
    ensures d == e
  {
    var y := |YearText(d.year)|;
    TwoDigitsDiffer(d.month, e.month);
    TwoDigitsDiffer(d.day, e.day);
    TwoDigitsDiffer(e.month, d.month);
    TwoDigitsDiffer(e.day, d.day);
    assert Key(d)[y + 1..y + 3] == TwoDigits(d.month) && Key(e)[y + 1..y + 3] == TwoDigits(e.month);
    assert Key(d)[y + 4..y + 6] == TwoDigits(d.day) && Key(e)[y + 4..y + 6] == TwoDigits(e.day);
  }

  // ---------------------------------------------------------------- the fold over the year

  type Counts = map<string, nat>

  function Lookup(counts: Counts, key: string): nat {
    if key in counts then counts[key] else 0
  }

  function DayAt(year: int, i: nat): (d: Date)
    ensures Valid(d)
  {
    AddDays(NewYear(year), i)
  }

  /** The keys the loop looks up, in order. */
  function YearKeys(year: int): (keys: seq<string>)
    ensures |keys| == DaysInYear(year)
  {
    seq(DaysInYear(year), i requires 0 <= i => Key(DayAt(year, i)))
  }

  function Sum(keys: seq<string>, counts: Counts): nat {
    if keys == [] then 0 else Sum(keys[..|keys| - 1], counts) + Lookup(counts, keys[|keys| - 1])
  }

  predicate IsMaximum(keys: seq<string>, counts: Counts, max: nat) {
    && (forall i :: 0 <= i < |keys| ==> Lookup(counts, keys[i]) <= max)
    && (max == 0 || exists i :: 0 <= i < |keys| && Lookup(counts, keys[i]) == max)
  }

  function RebootHeatmapLevel(count: nat): (level: nat)
    ensures level <= 3 && (level == 3 || level == count)
    ensures level == 3 <==> count >= 3
  {
    match count
    case 0 => 0
    case 1 => 1
    case 2 => 2
    case _ => 3
  }

  datatype Cell = Cell(date: string, count: nat, level: nat, caption: string)

  datatype Response = Response(year: int, totalReboots: nat, maxPerDay: nat, leadBlank: nat, days: seq<Cell>)

  function CellOf(d: Date, key: string, count: nat): Cell
    requires Valid(d)
  {
    Cell(key, count, RebootHeatmapLevel(count), Caption(d))
  }

  function DayCells(year: int, keys: seq<string>, counts: Counts): (cells: seq<Cell>)
    ensures |cells| == |keys|
  {
    if keys == [] then []
    else
      var n := |keys| - 1;
      DayCells(year, keys[..n], counts) + [CellOf(DayAt(year, n), keys[n], Lookup(counts, keys[n]))]
  }

  /** Cell i shows day i of the year under its own key. */
  lemma {:induction false} DayCellsAt(year: int, keys: seq<string>, counts: Counts, i: nat)
    requires i < |keys|
    ensures DayCells(year, keys, counts)[i] == CellOf(DayAt(year, i), keys[i], Lookup(counts, keys[i]))
  {
    if i < |keys| - 1 {
      DayCellsAt(year, keys[..|keys| - 1], counts, i);
    }
  }

  /** Monday is 0. */
  function MondayFirst(d: Date): (row: nat)
    requires Valid(d)
    ensures row < 7
  {
    (Weekday(d) + 6) % 7
  }

  lemma OneMoreDay(year: int, keys: seq<string>, i: nat, counts: Counts)
    requires i < |keys|
    ensures keys[..i + 1] == keys[..i] + [keys[i]]
    ensures Sum(keys[..i + 1], counts) == Sum(keys[..i], counts) + Lookup(counts, keys[i])
    ensures DayCells(year, keys[..i + 1], counts)
            == DayCells(year, keys[..i], counts) + [CellOf(DayAt(year, i), keys[i], Lookup(counts, keys[i]))]
  {
    assert keys[..i + 1][..i] == keys[..i];
  }

  lemma PeakSoFar(keys: seq<string>, counts: Counts, key: string, max: nat)
    requires IsMaximum(keys, counts, max)
    ensures IsMaximum(keys + [key], counts, if Lookup(counts, key) > max then Lookup(counts, key) else max)
  {
    var all := keys + [key];
    assert all[|keys|] == key && forall i :: 0 <= i < |keys| ==> all[i] == keys[i];
  }

  ghost predicate Folded(year: int, keys: seq<string>, counts: Counts, cells: seq<Cell>, total: nat, max: nat) {
    cells == DayCells(year, keys, counts) && total == Sum(keys, counts) && IsMaximum(keys, counts, max)
  }

  /** The body of the loop. */
  method FoldDay(year: int, i: nat, counts: Counts, ghost keys: seq<string>, cells: seq<Cell>, total: nat, max: nat)
    returns (cells': seq<Cell>, total': nat, max': nat)
    requires i < |keys| && keys[i] == Key(DayAt(year, i))
    requires Folded(year, keys[..i], counts, cells, total, max)
    ensures Folded(year, keys[..i + 1], counts, cells', total', max')
  {
    var day := DayAt(year, i);
    var key := Key(day);
    var count := Lookup(counts, key);
    max' := max;
    if count > max {
      max' := count;
    }
    total' := total + count;
    cells' := cells + [CellOf(day, key, count)];
    OneMoreDay(year, keys, i, counts);
    PeakSoFar(keys[..i], counts, keys[i], max);
  }

  lemma Whole(year: int, keys: seq<string>, counts: Counts, cells: seq<Cell>, total: nat, max: nat)
    requires Folded(year, keys[..|keys|], counts, cells, total, max)
    ensures Folded(year, keys, counts, cells, total, max)
  {
    assert keys[..|keys|] == keys;
  }

  method Fold(year: int, counts: Counts) returns (r: Response)
    ensures r.year == year && r.leadBlank == MondayFirst(NewYear(year))
    ensures Folded(year, YearKeys(year), counts, r.days, r.totalReboots, r.maxPerDay)
  {
    var daysInYear := 365;
    if IsLeapYear(year) {
      daysInYear := 366;
    }
    ghost var keys := YearKeys(year);
    var cells: seq<Cell> := [];
    var total, max := 0, 0;
    for i := 0 to daysInYear
      invariant Folded(year, keys[..i], counts, cells, total, max)
    {
      cells, total, max := FoldDay(year, i, counts, keys, cells, total, max);
    }
    Whole(year, keys, counts, cells, total, max);
    r := Response(year, total, max, MondayFirst(NewYear(year)), cells);
  }

  lemma RowOfDay(first: int, i: int)
    ensures (((first + 1) % 7 + 6) % 7 + i) % 7 == ((first + i + 1) % 7 + 6) % 7
  {
  }

  lemma RowShifts(d: Date, e: Date, i: int)
    requires Valid(d) && Valid(e) && DayNumber(e) == DayNumber(d) + i
    ensures (MondayFirst(d) + i) % 7 == MondayFirst(e)
  {
    var first := DayNumber(d);
    assert MondayFirst(d) == ((first + 1) % 7 + 6) % 7;
    assert MondayFirst(e) == ((first + i + 1) % 7 + 6) % 7;
    RowOfDay(first, i);
  }

  /** In a grid of seven rows, the blanks before new year's day put every day of the year into
      the row of its weekday. */
  lemma LeadBlankAlignsWeekdays(year: int, i: nat)
    ensures (MondayFirst(NewYear(year)) + i) % 7 == MondayFirst(DayAt(year, i))
  {
    AddDaysCounts(NewYear(year), i);
    RowShifts(NewYear(year), DayAt(year, i), i);
  }

  // ---------------------------------------------------------------- conservation

  lemma YearKeysDiffer(year: int)
    ensures Distinct(YearKeys(year))
  {
    var keys := YearKeys(year);
    forall i, j | 0 <= i < j < |keys|
      ensures keys[i] != keys[j]
    {
      DayOfYear(year, i);
      DayOfYear(year, j);
      if keys[i] == keys[j] {
        KeyIdentifies(DayAt(year, i), DayAt(year, j));
        AddDaysCounts(NewYear(year), i);
        AddDaysCounts(NewYear(year), j);
        assert false;
      }
    }
  }

  /** The loop looks up the key of every date of the year, and the key of no date twice. */
  lemma EveryDateOnce(year: int, d: Date)
    requires Valid(d) && d.year == year
    ensures YearKeys(year)[Position(d)] == Key(d)
    ensures forall j :: 0 <= j < DaysInYear(year) && YearKeys(year)[j] == Key(d) ==> j == Position(d)
  {
    var i := Position(d);
    WalkMeetsEveryDate(year, d, i);
    YearKeysDiffer(year);
  }

  /** The sum of a map, taken in any order. */
  ghost function MapSum(counts: Counts): nat {
    if counts == map[] then 0
    else
      var k :| k in counts;
      counts[k] + MapSum(counts - {k})
  }

  lemma {:induction false} MapSumWithout(counts: Counts, k: string)
    requires k in counts
    ensures MapSum(counts) == counts[k] + MapSum(counts - {k})
    decreases |counts|
  {
    var first :| first in counts && MapSum(counts) == counts[first] + MapSum(counts - {first});
    if first != k {
      var rest := counts - {first};
      MapSumWithout(rest, k);
      MapSumWithout(counts - {k}, first);
      assert rest - {k} == counts - {k} - {first};
    }
  }

  /** What remains of the counts after the keys have been taken out. */
  function Beyond(keys: seq<string>, counts: Counts): Counts {
    map k | k in counts && k !in keys :: counts[k]
  }

  lemma {:induction false} SumAndBeyond(keys: seq<string>, counts: Counts)
    requires Distinct(keys)
    ensures Sum(keys, counts) + MapSum(Beyond(keys, counts)) == MapSum(counts)
  {
    if keys == [] {
      assert Beyond(keys, counts) == counts;
    } else {
      var before, key := keys[..|keys| - 1], keys[|keys| - 1];
      SumAndBeyond(before, counts);
      assert keys == before + [key];
      if key in counts {
        MapSumWithout(Beyond(before, counts), key);
        assert Beyond(keys, counts) == Beyond(before, counts) - {key};
      } else {
        assert Beyond(keys, counts) == Beyond(before, counts);
      }
    }
  }

  lemma {:induction false} SumOfZeros(counts: Counts)
    ensures MapSum(counts) == 0 <==> forall k :: k in counts ==> counts[k] == 0
    decreases |counts|
  {
    if counts != map[] {
      var k :| k in counts && MapSum(counts) == counts[k] + MapSum(counts - {k});
      SumOfZeros(counts - {k});
      assert forall j :: j in counts ==> j == k || j in counts - {k};
    }
  }

  /** Nothing is lost and nothing counted twice: the year's total is the sum of all counts
      exactly when every date with a count lies in the year. */
  lemma TotalIsConservedIff(year: int, counts: Counts)
    ensures Sum(YearKeys(year), counts) == MapSum(counts)
            <==> forall k :: k in counts && counts[k] > 0 ==> k in YearKeys(year)
  {
    var keys := YearKeys(year);
    YearKeysDiffer(year);
    SumAndBeyond(keys, counts);
    SumOfZeros(Beyond(keys, counts));
  }

  /** With all dates in the year, the peak of the cells is the peak of the counts. */
  lemma MaximumOverCounts(year: int, counts: Counts, max: nat)
    requires IsMaximum(YearKeys(year), counts, max)
    requires forall k :: k in counts ==> k in YearKeys(year)
    ensures forall k :: k in counts ==> counts[k] <= max
    ensures max == 0 || exists k :: k in counts && counts[k] == max
  {
    var keys := YearKeys(year);
    forall k | k in counts
      ensures counts[k] <= max
    {
      var i :| 0 <= i < |keys| && keys[i] == k;
      assert Lookup(counts, keys[i]) <= max;
    }
    if max > 0 {
      var i :| 0 <= i < |keys| && Lookup(counts, keys[i]) == max;
      assert keys[i] in counts;
    }
  }

  // ---------------------------------------------------------------- from the log to the map

  /** The reader dates a time by one of the keys, or not at all. */
  ghost predicate DatesInto(dayOf: string -> StartupLog.Day, keys: seq<string>) {
    forall t :: dayOf(t).On? ==> dayOf(t).date in keys
  }

  function SumCounts(lines: seq<StartupLog.Line>, dayOf: string -> StartupLog.Day, keys: seq<string>): nat {
    if keys == [] then 0
    else
      SumCounts(lines, dayOf, keys[..|keys| - 1]) + StartupLog.Count(lines, dayOf, keys[|keys| - 1])
  }

  lemma {:induction false} SumCountsStep(lines: seq<StartupLog.Line>, dayOf: string -> StartupLog.Day,
      keys: seq<string>)
    requires lines != [] && Distinct(keys)
    ensures var day := StartupLog.DayOf(lines, |lines| - 1, dayOf);
            SumCounts(lines, dayOf, keys)
            == SumCounts(lines[..|lines| - 1], dayOf, keys) + if day.On? && day.date in keys then 1 else 0
  {
    if keys != [] {
      var before, key := keys[..|keys| - 1], keys[|keys| - 1];
      SumCountsStep(lines, dayOf, before);
      assert keys == before + [key];
    }
  }

  lemma {:induction false} NoCounts(dayOf: string -> StartupLog.Day, keys: seq<string>)
    ensures SumCounts([], dayOf, keys) == 0
  {
    if keys != [] {
      NoCounts(dayOf, keys[..|keys| - 1]);
    }
  }

  lemma {:induction false} SumCountsIsTotal(lines: seq<StartupLog.Line>, dayOf: string -> StartupLog.Day,
      keys: seq<string>)
    requires Distinct(keys) && DatesInto(dayOf, keys)
    ensures SumCounts(lines, dayOf, keys) == StartupLog.Total(lines, dayOf)
  {
    if lines == [] {
      NoCounts(dayOf, keys);
    } else {
      SumCountsIsTotal(lines[..|lines| - 1], dayOf, keys);
      SumCountsStep(lines, dayOf, keys);
    }
  }

  lemma {:induction false} SameSums(lines: seq<StartupLog.Line>, dayOf: string -> StartupLog.Day, keys: seq<string>,
      counts: Counts)
    requires forall date :: StartupLog.Count(lines, dayOf, date) == Lookup(counts, date)
    ensures Sum(keys, counts) == SumCounts(lines, dayOf, keys)
  {
    if keys != [] {
      SameSums(lines, dayOf, keys[..|keys| - 1], counts);
    }
  }

  lemma {:induction false} CountedDate(lines: seq<StartupLog.Line>, dayOf: string -> StartupLog.Day)
      returns (date: string)
    requires StartupLog.Total(lines, dayOf) > 0
    ensures StartupLog.Count(lines, dayOf, date) > 0
  {
    var day := StartupLog.DayOf(lines, |lines| - 1, dayOf);
    if day == StartupLog.NoDay {
      date := CountedDate(lines[..|lines| - 1], dayOf);
    } else {
      date := day.date;
    }
  }

  lemma {:induction false} CountBelowTotal(lines: seq<StartupLog.Line>, dayOf: string -> StartupLog.Day, date: string)
    ensures StartupLog.Count(lines, dayOf, date) <= StartupLog.Total(lines, dayOf)
  {
    if lines != [] {
      CountBelowTotal(lines[..|lines| - 1], dayOf, date);
    }
  }

  /** The history is used exactly when it counts at least one boot. */
  lemma Consulted(lines: seq<StartupLog.Line>, dayOf: string -> StartupLog.Day, counts: Counts)
    requires forall date :: StartupLog.Count(lines, dayOf, date) == Lookup(counts, date)
    requires forall date :: date in counts ==> counts[date] > 0
    ensures |counts| == 0 <==> StartupLog.Total(lines, dayOf) == 0
  {
    if |counts| > 0 {
      var k :| k in counts;
      assert StartupLog.Count(lines, dayOf, k) > 0;
      CountBelowTotal(lines, dayOf, k);
    }
    if StartupLog.Total(lines, dayOf) > 0 {
      var date := CountedDate(lines, dayOf);
      assert date in counts;
    }
  }

  // ---------------------------------------------------------------- two days in full

  /** Years have four digits and a sign of their own, months and days two digits. */
  lemma Texts()
    ensures YearText(2024) == "2024" && TwoDigits(1) == "01" && TwoDigits(2) == "02" && TwoDigits(29) == "29"
    ensures YearText(0) == "0000" && YearText(9) == "0009" && YearText(-20) == "-0020"
  {
    assert Decimal(0) == "0" && "0" + "0" == "00" && "0" + "00" == "000" && "0" + "000" == "0000";
    assert Padded("0000") == "0000" && Padded("000") == "0000" && Padded("00") == "0000";
    assert Decimal(9) == "9";
    assert "0" + "9" == "09" && "0" + "09" == "009" && "0" + "009" == "0009";
    assert Padded("0009") == "0009" && Padded("009") == "0009" && Padded("09") == "0009";
    assert "0" + "20" == "020" && "0" + "020" == "0020";
    assert Padded("0020") == "0020" && Padded("020") == "0020";
    assert "-" + "0020" == "-0020";
    assert Decimal(2) == "2" && Decimal(20) == "20" && Decimal(202) == "202" && Decimal(2024) == "2024";
    assert Decimal(1) == "1" && Decimal(29) == "29";
  }

  /** Key, caption and row of a new year's day on a Monday and of a leap day. */
  lemma TwoDays()
    ensures Key(Date(2024, 1, 1)) == "2024-01-01" && Caption(Date(2024, 1, 1)) == "Mon 01 Jan 2024"
    ensures Key(Date(2024, 2, 29)) == "2024-02-29" && Caption(Date(2024, 2, 29)) == "Thu 29 Feb 2024"
    ensures MondayFirst(Date(2024, 1, 1)) == 0 && MondayFirst(Date(2024, 2, 29)) == 3
  {
    Texts();
    AMonday();
    assert DaysBeforeMonth(2024, 1) == 0 && DaysBeforeMonth(2024, 2) == 31;
    assert DayNumber(Date(2024, 2, 29)) == DayNumber(Date(2024, 1, 1)) + 59;
    assert Weekday(Date(2024, 2, 29)) == 4;
  }

  // ---------------------------------------------------------------- the response

  function CellSum(cells: seq<Cell>): nat {
    if cells == [] then 0 else CellSum(cells[..|cells| - 1]) + cells[|cells| - 1].count
  }

  /** A cell shows day i of the year: its date, its count in four shades, and its caption. */
  predicate ShowsDay(year: int, i: nat, c: Cell) {
    var d := DayAt(year, i);
    c.date == Key(d) && c.caption == Caption(d) && c.level == if c.count < 3 then c.count else 3
  }

  /** A response that fits together: every day of the year in order, the sum and the peak of
      the counts shown, and the blanks before new year's day in a week that starts on Monday. */
  predicate Coherent(year: int, r: Response) {
    && r.year == year && |r.days| == DaysInYear(year)
    && (forall i :: 0 <= i < |r.days| ==> ShowsDay(year, i, r.days[i]))
    && r.totalReboots == CellSum(r.days)
    && (forall i :: 0 <= i < |r.days| ==> r.days[i].count <= r.maxPerDay)
    && (r.maxPerDay == 0 || exists i :: 0 <= i < |r.days| && r.days[i].count == r.maxPerDay)
    && r.leadBlank == (Weekday(NewYear(year)) + 6) % 7
  }

  lemma {:induction false} CellSumIsSum(year: int, keys: seq<string>, counts: Counts)
    ensures CellSum(DayCells(year, keys, counts)) == Sum(keys, counts)
  {
    if keys != [] {
      CellSumIsSum(year, keys[..|keys| - 1], counts);
      var init := DayCells(year, keys[..|keys| - 1], counts);
      assert DayCells(year, keys, counts)[..|keys| - 1] == init;
    }
  }

  lemma FoldedIsCoherent(year: int, counts: Counts, r: Response)
    requires r.year == year && r.leadBlank == MondayFirst(NewYear(year))
    requires Folded(year, YearKeys(year), counts, r.days, r.totalReboots, r.maxPerDay)
    ensures Coherent(year, r)
  {
    var keys := YearKeys(year);
    CellSumIsSum(year, keys, counts);
    forall i | 0 <= i < |r.days|
      ensures ShowsDay(year, i, r.days[i]) && r.days[i].count == Lookup(counts, keys[i])
    {
      DayCellsAt(year, keys, counts, i);
    }
    if r.maxPerDay != 0 {
      var i :| 0 <= i < |keys| && Lookup(counts, keys[i]) == r.maxPerDay;
      assert r.days[i].count == r.maxPerDay;
    }
  }

  /** The whole handler: the counts of the startup history, or those of the fallback log when
      the history yields none, folded into the year. From the history, the total is the number
      of distinct boots dated in the year. */
  method RebootsHandler(
    year: int, lines: seq<StartupLog.Line>, dayOf: string -> StartupLog.Day, readable: bool, fallback: Counts
  ) returns (r: Response)
    ensures Coherent(year, r)
    ensures readable && StartupLog.Total(lines, dayOf) > 0 ==>
              forall i :: 0 <= i < |r.days| ==>
                r.days[i].count == StartupLog.Count(lines, dayOf, YearKeys(year)[i])
    ensures readable && StartupLog.Total(lines, dayOf) > 0 && DatesInto(dayOf, YearKeys(year)) ==>
              r.totalReboots == |StartupLogLaws.DatedBoots(lines, dayOf)|
    ensures !readable || StartupLog.Total(lines, dayOf) == 0 ==>
              r.totalReboots == Sum(YearKeys(year), fallback)
              && r.days == DayCells(year, YearKeys(year), fallback)
  {
    var counts: Counts := map[];
    if readable {
      counts := StartupLog.ParseStartupHistoryByDay(lines, dayOf);
      Consulted(lines, dayOf, counts);
    }
    if |counts| == 0 {
      r := Fold(year, fallback);
      FoldedIsCoherent(year, fallback, r);
    } else {
      r := Fold(year, counts);
      FoldedIsCoherent(year, counts, r);
      forall i | 0 <= i < |r.days|
        ensures r.days[i].count == StartupLog.Count(lines, dayOf, YearKeys(year)[i])
      {
        DayCellsAt(year, YearKeys(year), counts, i);
      }
      YearKeysDiffer(year);
      SameSums(lines, dayOf, YearKeys(year), counts);
      if DatesInto(dayOf, YearKeys(year)) {
        SumCountsIsTotal(lines, dayOf, YearKeys(year));
        StartupLogLaws.TotalIsDatedBoots(lines, dayOf);
      }
    }
  }
}
