/** Yearly and monthly figures (setYear.php, setStat.php, setCarRecord.php, setBarChart.php)
    against the all-time ones (setRecord.php). */
module Statistics {
  import opened Relational
  import opened Mysqli
  import opened Market
  import opened Ledger
  import opened Odometer

  function IntLe(): (int, int) -> bool {
    (a: int, b: int) => a <= b
  }

  /** The years of all three tables' rows of the car; `union` drops repetitions. */
  function YearsUnion(t: Books, carIdx: int): seq<int> {
    Distinct(Map(DrivesOf(t, carIdx), DriveYear) + Map(OilsOf(t, carIdx), OilYear) +
             Map(RepairsOf(t, carIdx), RepairYear))
  }

  /** setYear.php */
  method SetYear(t: Books, carIdx: int) returns (arr: seq<int>)
    ensures IsYears(t, carIdx, arr)
    ensures forall i, j :: 0 <= i < j < |arr| ==> arr[i] < arr[j]
    ensures forall y :: y in arr <==> DriveIn(t, carIdx, y) || OilIn(t, carIdx, y) || RepairIn(t, carIdx, y)
  {
    assert TotalPreorder(IntLe());
    OrderByArranges(YearsUnion(t, carIdx), IntLe());
    var result := new ResultSet(OrderBy(YearsUnion(t, carIdx), IntLe()));
    arr := FetchAll(result);
    YearsListed(t, carIdx, arr);
  }

  ghost predicate IsYears(t: Books, carIdx: int, out: seq<int>) {
    Arrangement(YearsUnion(t, carIdx), out, IntLe())
  }

  // ----- figures -----

  function Charge(o: Oil): Option<int> { Some(o.charge) }
  function Cost(r: Repair): Option<int> { Some(r.charge) }

  /** `ifnull((select sum(v) from rows where key = ...), 0)` */
  function Figure<T(!new)>(rows: seq<T>, key: T -> int, v: T -> Option<int>): int -> int {
    k => SqlSum(Filter(rows, Having(key, k)), v).GetOr(0)
  }

  function OilsIn(t: Books, carIdx: int, year: int): seq<Oil> {
    Filter(OilsOf(t, carIdx), Having(OilYear, year))
  }

  function RepairsIn(t: Books, carIdx: int, year: int): seq<Repair> {
    Filter(RepairsOf(t, carIdx), Having(RepairYear, year))
  }

  function DrivesIn(t: Books, carIdx: int, year: int): seq<Drive> {
    Filter(DrivesOf(t, carIdx), Having(DriveYear, year))
  }

  /** The columns of setStat.php. */
  datatype Stat = Stat(oil: int, maintain: int, total: int, distance: int)

  /** `ifnull(oil + maintain, 0)`, where either sum may be null. */
  function TotalOf(oils: seq<Oil>, repairs: seq<Repair>): int {
    var oil, maintain := SqlSum(oils, Charge), SqlSum(repairs, Cost);
    if oil.Some? && maintain.Some? then oil.value + maintain.value else 0
  }

  function StatOil(t: Books, carIdx: int): int -> int { Figure(OilsOf(t, carIdx), OilYear, Charge) }
  function StatMaintain(t: Books, carIdx: int): int -> int { Figure(RepairsOf(t, carIdx), RepairYear, Cost) }
  function StatDistance(t: Books, carIdx: int): int -> int { Figure(DrivesOf(t, carIdx), DriveYear, Distance) }

  function StatOf(t: Books, carIdx: int, year: int): Stat {
    Stat(StatOil(t, carIdx)(year), StatMaintain(t, carIdx)(year),
         TotalOf(OilsIn(t, carIdx, year), RepairsIn(t, carIdx, year)), StatDistance(t, carIdx)(year))
  }

  /** The distance and charge columns of setCarRecord.php, for a year or a month of it. */
  datatype Record = Record(distance: int, charge: int)

  function YearRecord(t: Books, carIdx: int, year: int): Record {
    Record(SqlSum(DrivesIn(t, carIdx, year), Distance).GetOr(0), SqlSum(OilsIn(t, carIdx, year), Charge).GetOr(0))
  }

  function MonthCharge(t: Books, carIdx: int, year: int): int -> int {
    Figure(OilsIn(t, carIdx, year), OilMonth, Charge)
  }

  function MonthDistance(t: Books, carIdx: int, year: int): int -> int {
    Figure(DrivesIn(t, carIdx, year), DriveMonth, Distance)
  }

  function MonthRecord(t: Books, carIdx: int, year: int, month: int): Record {
    Record(MonthDistance(t, carIdx, year)(month), MonthCharge(t, carIdx, year)(month))
  }

  /** The money and distance rows of setRecord.php. */
  function AllOil(t: Books, carIdx: int): int {
    SqlSum(OilsOf(t, carIdx), Charge).GetOr(0)
  }

  function AllRepair(t: Books, carIdx: int): int {
    SqlSum(RepairsOf(t, carIdx), Cost).GetOr(0)
  }

  /** The figures are plain sums: a table without rows counts as nothing. */
  lemma PlainFigures(oils: seq<Oil>, repairs: seq<Repair>, drives: seq<Drive>)
    ensures SqlSum(oils, Charge).GetOr(0) == Add(oils, OilCharge)
    ensures SqlSum(repairs, Cost).GetOr(0) == Add(repairs, RepairCharge)
    ensures SqlSum(drives, Distance).GetOr(0) == Add(drives, Driven)
  {
    SqlSumOrZero(oils, Charge);
    AddAgree(oils, o => Charge(o).GetOr(0), OilCharge);
    SqlSumOrZero(repairs, Cost);
    AddAgree(repairs, r => Cost(r).GetOr(0), RepairCharge);
    DrivenSum(drives);
  }

  ghost predicate OilIn(t: Books, carIdx: int, year: int) {
    exists o :: o in t.oils && o.carIdx == carIdx && o.date.year == year
  }

  ghost predicate DriveIn(t: Books, carIdx: int, year: int) {
    exists d :: d in t.drives && d.carIdx == carIdx && d.date.year == year
  }

  ghost predicate RepairIn(t: Books, carIdx: int, year: int) {
    exists r :: r in t.repairs && r.carIdx == carIdx && r.date.year == year
  }

  /** The year's figures are plain sums over the ledgers, and the total is there only if both
      ledgers of money have a row in the year. */
  ghost predicate IsStat(t: Books, carIdx: int, year: int, s: Stat) {
    && s.oil == Add(t.oils, OilShare(carIdx, Yearly(year)))
    && s.maintain == Add(t.repairs, RepairShare(carIdx, Yearly(year)))
    && s.distance == Add(t.drives, DriveShare(carIdx, Yearly(year)))
    && s.total == if OilIn(t, carIdx, year) && RepairIn(t, carIdx, year) then s.oil + s.maintain else 0
  }

  lemma YearSums(t: Books, carIdx: int, year: int)
    ensures Add(OilsIn(t, carIdx, year), OilCharge) == Add(t.oils, OilShare(carIdx, Yearly(year)))
    ensures Add(RepairsIn(t, carIdx, year), RepairCharge) == Add(t.repairs, RepairShare(carIdx, Yearly(year)))
    ensures Add(DrivesIn(t, carIdx, year), Driven) == Add(t.drives, DriveShare(carIdx, Yearly(year)))
  {
    OilSums(t, carIdx, Having(OilYear, year), Yearly(year));
    RepairSums(t, carIdx, Having(RepairYear, year), Yearly(year));
    DriveSums(t, carIdx, Having(DriveYear, year), Yearly(year));
  }

  lemma YearRows(t: Books, carIdx: int, year: int)
    ensures OilsIn(t, carIdx, year) != [] <==> OilIn(t, carIdx, year)
    ensures RepairsIn(t, carIdx, year) != [] <==> RepairIn(t, carIdx, year)
  {
    EmptyOrMember(OilsIn(t, carIdx, year));
    EmptyOrMember(RepairsIn(t, carIdx, year));
    forall o ensures o in OilsIn(t, carIdx, year) <==> o in t.oils && o.carIdx == carIdx && o.date.year == year {
      assert o in OilsIn(t, carIdx, year) <==> o in OilsOf(t, carIdx) && OilYear(o) == year;
    }
    forall r ensures r in RepairsIn(t, carIdx, year) <==> r in t.repairs && r.carIdx == carIdx && r.date.year == year {
      assert r in RepairsIn(t, carIdx, year) <==> r in RepairsOf(t, carIdx) && RepairYear(r) == year;
    }
  }

  lemma StatFigures(t: Books, carIdx: int, year: int)
    ensures IsStat(t, carIdx, year, StatOf(t, carIdx, year))
  {
    StatShares(t, carIdx, year);
    StatTotal(t, carIdx, year);
  }

  lemma StatShares(t: Books, carIdx: int, year: int)
    ensures StatOf(t, carIdx, year).oil == Add(t.oils, OilShare(carIdx, Yearly(year)))
    ensures StatOf(t, carIdx, year).maintain == Add(t.repairs, RepairShare(carIdx, Yearly(year)))
    ensures StatOf(t, carIdx, year).distance == Add(t.drives, DriveShare(carIdx, Yearly(year)))
  {
    StatSums(t, carIdx, year);
    YearSums(t, carIdx, year);
  }

  lemma StatTotal(t: Books, carIdx: int, year: int)
    ensures var s := StatOf(t, carIdx, year);
            s.total == if OilIn(t, carIdx, year) && RepairIn(t, carIdx, year) then s.oil + s.maintain else 0
  {
    YearRows(t, carIdx, year);
    StatTotalRows(t, carIdx, year);
  }

  lemma StatTotalRows(t: Books, carIdx: int, year: int)
    ensures var s := StatOf(t, carIdx, year);
            s.total ==
            if OilsIn(t, carIdx, year) != [] && RepairsIn(t, carIdx, year) != [] then s.oil + s.maintain else 0
  {
    StatSums(t, carIdx, year);
    BothOrNothing(OilsIn(t, carIdx, year), RepairsIn(t, carIdx, year), StatOf(t, carIdx, year));
  }

  lemma BothOrNothing(oils: seq<Oil>, repairs: seq<Repair>, s: Stat)
    requires s.oil == Add(oils, OilCharge) && s.maintain == Add(repairs, RepairCharge)
    requires s.total == TotalOf(oils, repairs)
    ensures s.total == if oils != [] && repairs != [] then s.oil + s.maintain else 0
  {
    TotalIfBoth(oils, repairs);
  }

  lemma TotalIfBoth(oils: seq<Oil>, repairs: seq<Repair>)
    ensures TotalOf(oils, repairs) ==
            if oils == [] || repairs == [] then 0 else Add(oils, OilCharge) + Add(repairs, RepairCharge)
  {
    PlainFigures(oils, repairs, []);
    SumOfRows(oils, Charge);
    SumOfRows(repairs, Cost);
  }

  lemma StatSums(t: Books, carIdx: int, year: int)
    ensures StatOf(t, carIdx, year).oil == SqlSum(OilsIn(t, carIdx, year), Charge).GetOr(0)
            == Add(OilsIn(t, carIdx, year), OilCharge)
    ensures StatOf(t, carIdx, year).maintain == SqlSum(RepairsIn(t, carIdx, year), Cost).GetOr(0)
            == Add(RepairsIn(t, carIdx, year), RepairCharge)
    ensures StatOf(t, carIdx, year).distance == Add(DrivesIn(t, carIdx, year), Driven)
    ensures StatOf(t, carIdx, year).total == TotalOf(OilsIn(t, carIdx, year), RepairsIn(t, carIdx, year))
  {
    PlainFigures(OilsIn(t, carIdx, year), RepairsIn(t, carIdx, year), DrivesIn(t, carIdx, year));
  }

  /** setStat.php: one row if the car exists, none otherwise. */
  method SetStat(t: Books, carIdx: int, year: int) returns (arr: seq<Stat>)
    ensures arr == if HasKey(t.cars, CarKey, carIdx) then [StatOf(t, carIdx, year)] else []
    ensures arr != [] ==> IsStat(t, carIdx, year, arr[0])
  {
    var rows := if exists c :: c in t.cars && c.carIdx == carIdx then [StatOf(t, carIdx, year)] else [];
    var result := new ResultSet(rows);
    arr := FetchAll(result);
    StatFigures(t, carIdx, year);
  }

  /** setCarRecord.php: the year's row and the month's row. */
  method SetCarRecord(t: Books, carIdx: int, year: int, month: int) returns (arr: seq<Record>, arr2: seq<Record>)
    ensures arr == [YearRecord(t, carIdx, year)] && arr2 == [MonthRecord(t, carIdx, year, month)]
    ensures arr == [Record(Add(t.drives, DriveShare(carIdx, Yearly(year))),
                           Add(t.oils, OilShare(carIdx, Yearly(year))))]
    ensures arr2 == [Record(Add(t.drives, DriveShare(carIdx, Monthly(year, month))),
                            Add(t.oils, OilShare(carIdx, Monthly(year, month))))]
  {
    var result := new ResultSet([YearRecord(t, carIdx, year)]);
    arr := FetchAll(result);
    var result2 := new ResultSet([MonthRecord(t, carIdx, year, month)]);
    arr2 := FetchAll(result2);
    RecordFigures(t, carIdx, year, month);
  }

  lemma OilMonthSums(t: Books, carIdx: int, year: int, month: int)
    ensures Add(Filter(OilsIn(t, carIdx, year), Having(OilMonth, month)), OilCharge)
            == Add(t.oils, OilShare(carIdx, Monthly(year, month)))
  {
    FilterFilter(OilsOf(t, carIdx), Having(OilYear, year), Having(OilMonth, month));
    var both := And(Having(OilYear, year), Having(OilMonth, month));
    assert forall o: Oil :: both(o) <==> o.date.year == year && o.date.month == month;
    OilSums(t, carIdx, both, Monthly(year, month));
  }

  lemma RepairMonthSums(t: Books, carIdx: int, year: int, month: int)
    ensures Add(Filter(RepairsIn(t, carIdx, year), Having(RepairMonth, month)), RepairCharge)
            == Add(t.repairs, RepairShare(carIdx, Monthly(year, month)))
  {
    FilterFilter(RepairsOf(t, carIdx), Having(RepairYear, year), Having(RepairMonth, month));
    var both := And(Having(RepairYear, year), Having(RepairMonth, month));
    assert forall r: Repair :: both(r) <==> r.date.year == year && r.date.month == month;
    RepairSums(t, carIdx, both, Monthly(year, month));
  }

  lemma DriveMonthSums(t: Books, carIdx: int, year: int, month: int)
    ensures Add(Filter(DrivesIn(t, carIdx, year), Having(DriveMonth, month)), Driven)
            == Add(t.drives, DriveShare(carIdx, Monthly(year, month)))
  {
    FilterFilter(DrivesOf(t, carIdx), Having(DriveYear, year), Having(DriveMonth, month));
    var both := And(Having(DriveYear, year), Having(DriveMonth, month));
    assert forall d: Drive :: both(d) <==> d.date.year == year && d.date.month == month;
    DriveSums(t, carIdx, both, Monthly(year, month));
  }

  lemma RecordFigures(t: Books, carIdx: int, year: int, month: int)
    ensures YearRecord(t, carIdx, year) ==
            Record(Add(t.drives, DriveShare(carIdx, Yearly(year))), Add(t.oils, OilShare(carIdx, Yearly(year))))
    ensures MonthRecord(t, carIdx, year, month) ==
            Record(Add(t.drives, DriveShare(carIdx, Monthly(year, month))),
                   Add(t.oils, OilShare(carIdx, Monthly(year, month))))
  {
    PlainFigures(OilsIn(t, carIdx, year), [], DrivesIn(t, carIdx, year));
    YearSums(t, carIdx, year);
    PlainFigures(Filter(OilsIn(t, carIdx, year), Having(OilMonth, month)), [],
                 Filter(DrivesIn(t, carIdx, year), Having(DriveMonth, month)));
    OilMonthSums(t, carIdx, year, month);
    DriveMonthSums(t, carIdx, year, month);
  }

  // ----- conservation -----

  /** Figures per key add up to the figure over the whole table, when the keys cover it. */
  lemma FiguresAddUp<T(!new)>(rows: seq<T>, key: T -> int, keys: seq<int>, v: T -> Option<int>)
    requires NoDuplicates(keys) && forall x :: x in rows ==> key(x) in keys
    ensures Add(keys, Figure(rows, key, v)) == SqlSum(rows, v).GetOr(0)
  {
    var w := x => v(x).GetOr(0);
    AddGroups(rows, key, keys, w);
    SqlSumOrZero(rows, v);
    AddAgree(rows, w, x => v(x).GetOr(0));
    forall k | k in keys ensures Figure(rows, key, v)(k) == GroupSum(rows, key, w)(k) {
      SqlSumOrZero(Filter(rows, Having(key, k)), v);
      AddAgree(Filter(rows, Having(key, k)), w, x => v(x).GetOr(0));
    }
    AddAgree(keys, Figure(rows, key, v), GroupSum(rows, key, w));
  }

  /** The listed years are distinct, ascending, and exactly those with any row. */
  lemma YearsListed(t: Books, carIdx: int, years: seq<int>)
    requires IsYears(t, carIdx, years)
    ensures NoDuplicates(years)
    ensures forall i, j :: 0 <= i < j < |years| ==> years[i] < years[j]
    ensures forall y :: y in years <==> DriveIn(t, carIdx, y) || OilIn(t, carIdx, y) || RepairIn(t, carIdx, y)
  {
    NoDuplicatesPermutes(YearsUnion(t, carIdx), years);
    ArrangementMembers(YearsUnion(t, carIdx), years, IntLe());
    forall i, j | 0 <= i < j < |years| ensures years[i] < years[j] {
      assert IntLe()(years[i], years[j]);
    }
    forall y ensures y in years <==> DriveIn(t, carIdx, y) || OilIn(t, carIdx, y) || RepairIn(t, carIdx, y) {
      MapMembers(DrivesOf(t, carIdx), DriveYear, y);
      MapMembers(OilsOf(t, carIdx), OilYear, y);
      MapMembers(RepairsOf(t, carIdx), RepairYear, y);
    }
  }

  /** Over the listed years the yearly figures add up to the all-time figures. */
  lemma YearsConserve(t: Books, carIdx: int, years: seq<int>)
    requires IsYears(t, carIdx, years)
    ensures Add(years, StatOil(t, carIdx)) == AllOil(t, carIdx)
    ensures Add(years, StatMaintain(t, carIdx)) == AllRepair(t, carIdx)
    ensures Add(years, StatDistance(t, carIdx)) == Total(t, carIdx)
  {
    YearsListed(t, carIdx, years);
    forall d | d in DrivesOf(t, carIdx) ensures DriveYear(d) in years {
      assert DriveIn(t, carIdx, d.date.year);
    }
    forall o | o in OilsOf(t, carIdx) ensures OilYear(o) in years {
      assert OilIn(t, carIdx, o.date.year);
    }
    forall r | r in RepairsOf(t, carIdx) ensures RepairYear(r) in years {
      assert RepairIn(t, carIdx, r.date.year);
    }
    FiguresAddUp(OilsOf(t, carIdx), OilYear, years, Charge);
    FiguresAddUp(RepairsOf(t, carIdx), RepairYear, years, Cost);
    FiguresAddUp(DrivesOf(t, carIdx), DriveYear, years, Distance);
    DrivenSum(DrivesOf(t, carIdx));
  }

  /** The initial odometer reading and the yearly distances give the current reading. */
  lemma YearsReachReading(t: Books, carIdx: int, years: seq<int>, initial: int)
    requires IsYears(t, carIdx, years) && Metered(t, carIdx, initial)
    ensures CurrentReading(t, carIdx).Some?
    ensures initial + Add(years, StatDistance(t, carIdx)) == CurrentReading(t, carIdx).value
  {
    YearsConserve(t, carIdx, years);
    CurrentIsTotal(t, carIdx, initial);
  }

  /** The twelve months, in any order. */
  ghost predicate AllMonths(months: seq<int>) {
    NoDuplicates(months) && forall m :: m in months <==> 1 <= m <= 12
  }

  ghost predicate DatesValid(t: Books) {
    && (forall d :: d in t.drives ==> Valid(d.date))
    && (forall o :: o in t.oils ==> Valid(o.date))
    && (forall r :: r in t.repairs ==> Valid(r.date))
  }

  lemma MonthsCover<T(!new)>(rows: seq<T>, key: T -> int, v: T -> Option<int>, months: seq<int>)
    requires AllMonths(months)
    requires forall x :: x in rows ==> 1 <= key(x) <= 12
    ensures Add(months, Figure(rows, key, v)) == SqlSum(rows, v).GetOr(0)
  {
    FiguresAddUp(rows, key, months, v);
  }

  /** The twelve monthly figures of a year add up to the yearly ones, which are setStat's. */
  lemma MonthsConserve(t: Books, carIdx: int, year: int, months: seq<int>)
    requires DatesValid(t) && AllMonths(months)
    ensures Add(months, MonthCharge(t, carIdx, year)) == YearRecord(t, carIdx, year).charge
            == StatOf(t, carIdx, year).oil
    ensures Add(months, MonthDistance(t, carIdx, year)) == YearRecord(t, carIdx, year).distance
            == StatOf(t, carIdx, year).distance
  {
    MonthsCover(OilsIn(t, carIdx, year), OilMonth, Charge, months);
    MonthsCover(DrivesIn(t, carIdx, year), DriveMonth, Distance, months);
  }

  lemma SumOfRows<T(!new)>(rows: seq<T>, w: T -> Option<int>)
    requires forall x :: x in rows ==> w(x).Some?
    ensures SqlSum(rows, w).Some? <==> rows != []
  {
    SqlSumNull(rows, w);
    EmptyOrMember(rows);
  }

  /** The yearly `total` is the sum of its two parts exactly when both ledgers have a row in
      the year or the parts cancel to nothing: with only one ledger used it shows zero. */
  lemma TotalNeedsBothLedgers(t: Books, carIdx: int, year: int)
    ensures var s := StatOf(t, carIdx, year);
            s.total == s.oil + s.maintain <==>
            (OilIn(t, carIdx, year) && RepairIn(t, carIdx, year)) || s.oil + s.maintain == 0
  {
    StatTotal(t, carIdx, year);
  }

  /** A year with one fuel bill and no repair: the total shows zero instead of the bill. */
  lemma FuelOnlyYear(t: Books, oil: Oil)
    requires t.oils == [oil] && t.repairs == []
    ensures var s := StatOf(t, oil.carIdx, oil.date.year);
            s.oil == oil.charge && s.maintain == 0 && s.total == 0
  {
    StatShares(t, oil.carIdx, oil.date.year);
    StatTotal(t, oil.carIdx, oil.date.year);
    AddOne(oil, OilShare(oil.carIdx, Yearly(oil.date.year)));
  }

  lemma AddOne<T(!new)>(x: T, w: T -> int)
    ensures Add([x], w) == w(x)
  {
  }

  // ----- the bar chart -----

  datatype Bar = Bar(month: int, maintain: int, oil: int)

  function BarMonth(b: Bar): int { b.month }
  function BarMaintain(b: Bar): int { b.maintain }
  function BarOil(b: Bar): int { b.oil }

  /** `ifnull((select round(sum(v) / 1000, 0) from rows where key = k), 0)` */
  function Thousands<T(!new)>(rows: seq<T>, key: T -> int, v: T -> Option<int>): int -> int {
    k => var sum := SqlSum(Filter(rows, Having(key, k)), v);
         if sum.Some? then Rounded(sum.value, 1000) else 0
  }

  /** The bar of a month, from the year's repairs and fuel bills. */
  function BarOf(repairs: seq<Repair>, oils: seq<Oil>): int -> Bar {
    (m: int) => Bar(m, Thousands(repairs, RepairMonth, Cost)(m), Thousands(oils, OilMonth, Charge)(m))
  }

  /** One arm of the union: a bar for each month of its table. */
  function Arm<T(!new)>(rows: seq<T>, key: T -> int, bar: int -> Bar): seq<Bar> {
    Map(Distinct(Map(rows, key)), bar)
  }

  /** `union` keeps equal rows of the two arms once. */
  function Bars(repairs: seq<Repair>, oils: seq<Oil>): seq<Bar> {
    Distinct(Arm(repairs, RepairMonth, BarOf(repairs, oils)) + Arm(oils, OilMonth, BarOf(repairs, oils)))
  }

  predicate MonthLe(a: Bar, b: Bar) {
    a.month <= b.month
  }

  ghost predicate IsChart(repairs: seq<Repair>, oils: seq<Oil>, out: seq<Bar>) {
    Arrangement(Bars(repairs, oils), out, MonthLe)
  }

  /** A bar for each month of the year with a repair or a fuel bill, in month order, each with
      the month's sums in thousands. */
  ghost predicate ShowsYear(t: Books, carIdx: int, year: int, out: seq<Bar>) {
    && (forall i, j :: 0 <= i < j < |out| ==> out[i].month < out[j].month)
    && (forall b :: b in out ==>
         && b.maintain == Rounded(Add(t.repairs, RepairShare(carIdx, Monthly(year, b.month))), 1000)
         && b.oil == Rounded(Add(t.oils, OilShare(carIdx, Monthly(year, b.month))), 1000))
    && (forall m :: m in Map(out, BarMonth) <==>
         RepairInMonth(t, carIdx, year, m) || OilInMonth(t, carIdx, year, m))
  }

  ghost predicate RepairInMonth(t: Books, carIdx: int, year: int, month: int) {
    exists r :: r in t.repairs && r.carIdx == carIdx && r.date.year == year && r.date.month == month
  }

  ghost predicate OilInMonth(t: Books, carIdx: int, year: int, month: int) {
    exists o :: o in t.oils && o.carIdx == carIdx && o.date.year == year && o.date.month == month
  }

  method SetBarChart(t: Books, carIdx: int, year: int) returns (arr: seq<Bar>)
    ensures IsChart(RepairsIn(t, carIdx, year), OilsIn(t, carIdx, year), arr)
    ensures ShowsYear(t, carIdx, year, arr)
  {
    var bars := Bars(RepairsIn(t, carIdx, year), OilsIn(t, carIdx, year));
    assert TotalPreorder(MonthLe);
    OrderByArranges(bars, MonthLe);
    var result := new ResultSet(OrderBy(bars, MonthLe));
    arr := FetchAll(result);
    ChartShowsYear(t, carIdx, year, arr);
  }

  lemma ThousandsOf<T(!new)>(rows: seq<T>, key: T -> int, v: T -> Option<int>, w: T -> int, k: int)
    requires forall x :: v(x).GetOr(0) == w(x)
    ensures Thousands(rows, key, v)(k) == Rounded(Add(Filter(rows, Having(key, k)), w), 1000)
  {
    var here := Filter(rows, Having(key, k));
    SqlSumOrZero(here, v);
    AddAgree(here, x => v(x).GetOr(0), w);
    RoundedClose(0, 1000);
  }

  lemma BarFigures(t: Books, carIdx: int, year: int, m: int)
    ensures var b := BarOf(RepairsIn(t, carIdx, year), OilsIn(t, carIdx, year))(m);
            && b.maintain == Rounded(Add(t.repairs, RepairShare(carIdx, Monthly(year, m))), 1000)
            && b.oil == Rounded(Add(t.oils, OilShare(carIdx, Monthly(year, m))), 1000)
  {
    ThousandsOf(RepairsIn(t, carIdx, year), RepairMonth, Cost, RepairCharge, m);
    ThousandsOf(OilsIn(t, carIdx, year), OilMonth, Charge, OilCharge, m);
    OilMonthSums(t, carIdx, year, m);
    RepairMonthSums(t, carIdx, year, m);
  }

  lemma MonthsWithRows(t: Books, carIdx: int, year: int, m: int)
    ensures m in Map(RepairsIn(t, carIdx, year), RepairMonth) <==> RepairInMonth(t, carIdx, year, m)
    ensures m in Map(OilsIn(t, carIdx, year), OilMonth) <==> OilInMonth(t, carIdx, year, m)
  {
    MapMembers(RepairsIn(t, carIdx, year), RepairMonth, m);
    MapMembers(OilsIn(t, carIdx, year), OilMonth, m);
    forall o ensures o in OilsIn(t, carIdx, year) <==> o in t.oils && o.carIdx == carIdx && o.date.year == year {
      assert o in OilsIn(t, carIdx, year) <==> o in OilsOf(t, carIdx) && OilYear(o) == year;
    }
    forall r ensures r in RepairsIn(t, carIdx, year) <==> r in t.repairs && r.carIdx == carIdx && r.date.year == year {
      assert r in RepairsIn(t, carIdx, year) <==> r in RepairsOf(t, carIdx) && RepairYear(r) == year;
    }
  }

  lemma ChartShowsYear(t: Books, carIdx: int, year: int, out: seq<Bar>)
    requires IsChart(RepairsIn(t, carIdx, year), OilsIn(t, carIdx, year), out)
    ensures ShowsYear(t, carIdx, year, out)
  {
    OneBarPerMonth(RepairsIn(t, carIdx, year), OilsIn(t, carIdx, year), out);
    forall b | b in out
      ensures b.maintain == Rounded(Add(t.repairs, RepairShare(carIdx, Monthly(year, b.month))), 1000)
      ensures b.oil == Rounded(Add(t.oils, OilShare(carIdx, Monthly(year, b.month))), 1000)
    {
      BarFigures(t, carIdx, year, b.month);
    }
    forall m ensures m in Map(out, BarMonth) <==> RepairInMonth(t, carIdx, year, m) || OilInMonth(t, carIdx, year, m) {
      MonthsWithRows(t, carIdx, year, m);
    }
  }

  lemma ArmMembers<T(!new)>(rows: seq<T>, key: T -> int, bar: int -> Bar, b: Bar)
    requires forall m :: bar(m).month == m
    ensures b in Arm(rows, key, bar) <==> b == bar(b.month) && b.month in Map(rows, key)
  {
    MapMembers(Distinct(Map(rows, key)), bar, b);
    if b in Arm(rows, key, bar) {
      var months := Distinct(Map(rows, key));
      var i :| 0 <= i < |months| && Arm(rows, key, bar)[i] == b;
      assert bar(months[i]).month == months[i];
    }
  }

  lemma BarsMembers(repairs: seq<Repair>, oils: seq<Oil>, b: Bar)
    ensures b in Bars(repairs, oils) <==>
            b == BarOf(repairs, oils)(b.month) &&
            (b.month in Map(repairs, RepairMonth) || b.month in Map(oils, OilMonth))
  {
    ArmMembers(repairs, RepairMonth, BarOf(repairs, oils), b);
    ArmMembers(oils, OilMonth, BarOf(repairs, oils), b);
  }

  /** The chart has exactly one bar for each month with any row, in month order, because the
      two arms agree on the months they share. */
  lemma OneBarPerMonth(repairs: seq<Repair>, oils: seq<Oil>, out: seq<Bar>)
    requires IsChart(repairs, oils, out)
    ensures forall i, j :: 0 <= i < j < |out| ==> out[i].month < out[j].month
    ensures forall b :: b in out ==> b == BarOf(repairs, oils)(b.month)
    ensures forall m :: m in Map(out, BarMonth) <==> m in Map(repairs, RepairMonth) || m in Map(oils, OilMonth)
  {
    var all := Bars(repairs, oils);
    ArrangementMembers(all, out, MonthLe);
    NoDuplicatesPermutes(all, out);
    forall b | b in out ensures b == BarOf(repairs, oils)(b.month) {
      BarsMembers(repairs, oils, b);
    }
    forall i, j | 0 <= i < j < |out| ensures out[i].month < out[j].month {
      assert MonthLe(out[i], out[j]);
      assert out[i] in out && out[j] in out && out[i] != out[j];
    }
    forall m ensures m in Map(out, BarMonth) <==> m in Map(repairs, RepairMonth) || m in Map(oils, OilMonth) {
      BarForMonth(repairs, oils, out, m);
    }
  }

  lemma BarForMonth(repairs: seq<Repair>, oils: seq<Oil>, out: seq<Bar>, m: int)
    requires forall b :: b in out <==> b in Bars(repairs, oils)
    ensures m in Map(out, BarMonth) <==> m in Map(repairs, RepairMonth) || m in Map(oils, OilMonth)
  {
    MapMembers(out, BarMonth, m);
    if b :| b in out && b.month == m {
      BarsMembers(repairs, oils, b);
    }
    BarsMembers(repairs, oils, BarOf(repairs, oils)(m));
  }

  /** Each figure in thousands misses the exact one by at most 500. */
  ghost predicate Close(keys: seq<int>, exact: int -> int, thousands: int -> int) {
    forall k :: k in keys ==> -500 <= 1000 * thousands(k) - exact(k) <= 500
  }

  lemma {:induction false} RoundedSum(keys: seq<int>, exact: int -> int, thousands: int -> int)
    requires Close(keys, exact, thousands)
    ensures -500 * |keys| <= 1000 * Add(keys, thousands) - Add(keys, exact) <= 500 * |keys|
  {
    if keys == [] {
    } else {
      var k := keys[0];
      assert -500 <= 1000 * thousands(k) - exact(k) <= 500 by {
        assert k in keys;
      }
      RoundedSum(keys[1..], exact, thousands);
      assert Add(keys, thousands) == thousands(k) + Add(keys[1..], thousands);
      assert Add(keys, exact) == exact(k) + Add(keys[1..], exact);
    }
  }

  lemma ThousandsClose<T(!new)>(rows: seq<T>, key: T -> int, v: T -> Option<int>, k: int)
    ensures -500 <= 1000 * Thousands(rows, key, v)(k) - Figure(rows, key, v)(k) <= 500
  {
    var sum := SqlSum(Filter(rows, Having(key, k)), v);
    if sum.Some? {
      RoundedClose(sum.value, 1000);
    }
  }

  lemma AllClose<T(!new)>(rows: seq<T>, key: T -> int, v: T -> Option<int>, keys: seq<int>)
    ensures Close(keys, Figure(rows, key, v), Thousands(rows, key, v))
  {
    forall k | k in keys ensures -500 <= 1000 * Thousands(rows, key, v)(k) - Figure(rows, key, v)(k) <= 500 {
      ThousandsClose(rows, key, v, k);
    }
  }

  /** Figures rounded to thousands miss their total by at most 500 each. */
  lemma ColumnClose<T(!new)>(rows: seq<T>, key: T -> int, v: T -> Option<int>, months: seq<int>)
    requires NoDuplicates(months) && forall x :: x in rows ==> key(x) in months
    ensures -500 * |months| <= 1000 * Add(months, Thousands(rows, key, v)) - SqlSum(rows, v).GetOr(0) <= 500 * |months|
  {
    FiguresAddUp(rows, key, months, v);
    AllClose(rows, key, v, months);
    RoundedSum(months, Figure(rows, key, v), Thousands(rows, key, v));
  }

  lemma {:induction false} AtMostBound(months: seq<int>, bound: nat)
    requires forall i, j :: 0 <= i < j < |months| ==> months[i] < months[j]
    requires forall i :: 0 <= i < |months| ==> 1 <= months[i] <= bound
    ensures |months| <= bound
  {
    if months == [] {
    } else {
      var rest := months[..|months|-1];
      AtMostBound(rest, months[|months|-1] - 1);
    }
  }

  /** A thousand times the chart's columns miss the year's totals by at most 500 for each
      bar, hence by at most 6000. */
  lemma ChartCloseToYear(t: Books, carIdx: int, year: int, out: seq<Bar>)
    requires IsChart(RepairsIn(t, carIdx, year), OilsIn(t, carIdx, year), out) && DatesValid(t)
    ensures |out| <= 12
    ensures -500 * |out| <= 1000 * Add(out, BarMaintain) - StatOf(t, carIdx, year).maintain <= 500 * |out|
    ensures -500 * |out| <= 1000 * Add(out, BarOil) - StatOf(t, carIdx, year).oil <= 500 * |out|
  {
    ValidMonths(t, carIdx, year);
    ChartClose(RepairsIn(t, carIdx, year), OilsIn(t, carIdx, year), out);
  }

  lemma ValidMonths(t: Books, carIdx: int, year: int)
    requires DatesValid(t)
    ensures forall m :: m in Map(RepairsIn(t, carIdx, year), RepairMonth) ==> 1 <= m <= 12
    ensures forall m :: m in Map(OilsIn(t, carIdx, year), OilMonth) ==> 1 <= m <= 12
  {
    MonthsOf(RepairsIn(t, carIdx, year), RepairMonth);
    MonthsOf(OilsIn(t, carIdx, year), OilMonth);
  }

  lemma MonthsOf<T(!new)>(rows: seq<T>, key: T -> int)
    requires forall x :: x in rows ==> 1 <= key(x) <= 12
    ensures forall m :: m in Map(rows, key) ==> 1 <= m <= 12
  {
    forall m | m in Map(rows, key) ensures 1 <= m <= 12 {
      MapMembers(rows, key, m);
    }
  }

  lemma ChartClose(repairs: seq<Repair>, oils: seq<Oil>, out: seq<Bar>)
    requires IsChart(repairs, oils, out)
    requires forall m :: m in Map(repairs, RepairMonth) ==> 1 <= m <= 12
    requires forall m :: m in Map(oils, OilMonth) ==> 1 <= m <= 12
    ensures |out| <= 12
    ensures -500 * |out| <= 1000 * Add(out, BarMaintain) - SqlSum(repairs, Cost).GetOr(0) <= 500 * |out|
    ensures -500 * |out| <= 1000 * Add(out, BarOil) - SqlSum(oils, Charge).GetOr(0) <= 500 * |out|
  {
    var months := Map(out, BarMonth);
    OneBarPerMonth(repairs, oils, out);
    forall i | 0 <= i < |months| ensures 1 <= months[i] <= 12 {
      assert months[i] in months;
    }
    AtMostBound(months, 12);
    forall r | r in repairs ensures RepairMonth(r) in months {
      MapMembers(repairs, RepairMonth, RepairMonth(r));
    }
    forall o | o in oils ensures OilMonth(o) in months {
      MapMembers(oils, OilMonth, OilMonth(o));
    }
    ColumnClose(repairs, RepairMonth, Cost, months);
    ColumnClose(oils, OilMonth, Charge, months);
    AddMapped(out, BarMonth, BarMaintain, Thousands(repairs, RepairMonth, Cost));
    AddMapped(out, BarMonth, BarOil, Thousands(oils, OilMonth, Charge));
  }

  /** The distances of a month's drive list add up to the month's distance figure. */
  lemma ListedDistances(t: Books, carIdx: int, year: int, month: int, arr: seq<(Drive, Option<int>)>)
    requires IsDriveList(t, carIdx, year, month, arr)
    ensures Add(Map(arr, RowDrive), Driven) == MonthRecord(t, carIdx, year, month).distance
  {
    AddPermutes(Map(arr, RowDrive), MonthDrives(t, carIdx, year, month), Driven);
    DriveSums(t, carIdx, OfMonth(year, month), Monthly(year, month));
    RecordFigures(t, carIdx, year, month);
  }
}
