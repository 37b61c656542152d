/** Maintenance due: the wear list (setSerList.php) against the count of overdue types
    (setRecord.php). */
module Maintenance {
  import opened Relational
  import opened Mysqli
  import opened Ledger
  import opened Odometer
  import opened Statistics

  const TODAY := Date(2023, 7, 1)

  // ----- the group of a maintenance type -----

  function RepairKind(r: Repair): int { r.mainType }

  /** The car's repairs of the type. */
  function RepairsFor(t: Books, carIdx: int, k: Kind): seq<Repair> {
    Filter(RepairsOf(t, carIdx), Having(RepairKind, k.mainType))
  }

  /** A repair joined with a drive of its car, if there is one. */
  datatype Pair = Pair(repair: Repair, drive: Option<Drive>)

  function WithDrive(t: Books): Repair -> seq<Pair> {
    (r: Repair) => Map(OrNull(DrivesOf(t, r.carIdx)), (d: Option<Drive>) => Pair(r, d))
  }

  /** The rows grouped under the type: each repair once for every drive of its car. */
  function GroupOf(t: Books, carIdx: int, k: Kind): seq<Pair> {
    FlatMap(RepairsFor(t, carIdx, k), WithDrive(t))
  }

  function PairDate(p: Pair): Date { p.repair.date }
  function RepairDate(r: Repair): Date { r.date }

  /** `max(maintain_history.date)` over the group. */
  function LastDone(t: Books, carIdx: int, k: Kind): Option<Date> {
    Latest(Map(GroupOf(t, carIdx, k), PairDate))
  }

  lemma LatestDetermined(a: seq<Date>, b: seq<Date>)
    requires forall d :: d in a <==> d in b
    ensures Latest(a) == Latest(b)
  {
    EmptyOrMember(a);
    EmptyOrMember(b);
  }

  /** Joining the drives repeats rows of the group but not its latest date. */
  lemma JoinKeepsLastDone(t: Books, carIdx: int, k: Kind)
    ensures LastDone(t, carIdx, k) == Latest(Map(RepairsFor(t, carIdx, k), RepairDate))
  {
    var repairs, group := RepairsFor(t, carIdx, k), GroupOf(t, carIdx, k);
    forall p | p in group ensures exists r :: r in repairs && RepairDate(r) == PairDate(p) {
      FlatMapMembers(repairs, WithDrive(t), p);
      var r :| r in repairs && p in WithDrive(t)(r);
      MapMembers(OrNull(DrivesOf(t, r.carIdx)), (d: Option<Drive>) => Pair(r, d), p);
    }
    forall r | r in repairs ensures exists p :: p in group && PairDate(p) == RepairDate(r) {
      var d := OrNull(DrivesOf(t, r.carIdx))[0];
      MapMembers(OrNull(DrivesOf(t, r.carIdx)), (d: Option<Drive>) => Pair(r, d), Pair(r, d));
      FlatMapMembers(repairs, WithDrive(t), Pair(r, d));
    }
    SameKeys(group, repairs, PairDate, RepairDate);
    LatestDetermined(Map(group, PairDate), Map(repairs, RepairDate));
  }

  // ----- distances and months since -----

  function Since(date: Date): Drive -> bool {
    (d: Drive) => OnOrBefore(date, d.date)
  }

  /** The correlated `sum(distance)` since the last repair; null without repair or drive. */
  function SinceLast(t: Books, carIdx: int, last: Option<Date>): Option<int> {
    if last.None? then None else SqlSum(Filter(DrivesOf(t, carIdx), Since(last.value)), Distance)
  }

  function FullMonths(a: Date, b: Date): int {
    12 * (b.year - a.year) + (b.month - a.month) - if b.day < a.day then 1 else 0
  }

  /** `timestampdiff(month, a, b)`: whole months, toward zero in both directions. */
  function MonthsBetween(a: Date, b: Date): int {
    if OnOrBefore(a, b) then FullMonths(a, b) else -FullMonths(b, a)
  }

  /** `period_diff(YYYYMM of today, p)` for a period p written YYYYMM. */
  function PeriodDiff(p: int): int {
    TODAY.year * 12 + TODAY.month - (p / 100 * 12 + p % 100)
  }

  /** Months counted from year 0. */
  function MonthIndex(d: Date): int {
    12 * d.year + d.month
  }

  /** The difference is the number of whole months that fit between the dates: moving a on by
      that many months does not pass b, one month more does; and it changes sign with the
      order of the dates. */
  lemma MonthsBetweenFit(a: Date, b: Date)
    requires Valid(a) && Valid(b)
    ensures MonthsBetween(b, a) == -MonthsBetween(a, b)
    ensures OnOrBefore(a, b) ==>
              var m := MonthsBetween(a, b);
              && (MonthIndex(a) + m < MonthIndex(b) || (MonthIndex(a) + m == MonthIndex(b) && a.day <= b.day))
              && (MonthIndex(a) + m + 1 > MonthIndex(b) || (MonthIndex(a) + m + 1 == MonthIndex(b) && a.day > b.day))
  {
  }

  /** For the period of a date the difference counts the months from its month to this one. */
  lemma PeriodDiffCounts(d: Date)
    requires Valid(d)
    ensures PeriodDiff(100 * d.year + d.month) == MonthIndex(TODAY) - MonthIndex(d)
  {
  }

  /** `(select regist_de from refer, car ...)` */
  function RegisteredIn(t: Books, carIdx: int): Option<int> {
    var rows := RegisterRows(t, carIdx);
    if rows == [] then None else rows[0].registDe
  }

  /** Months since the last repair, else since registration, else unknown. */
  function MonthsSince(t: Books, carIdx: int, last: Option<Date>): Option<int> {
    if last.Some? then Some(MonthsBetween(last.value, TODAY))
    else if RegisteredIn(t, carIdx).Some? then Some(PeriodDiff(RegisteredIn(t, carIdx).value))
    else None
  }

  /** `ifnull(a, b)` */
  function IfNull(a: Option<int>, b: Option<int>): Option<int> {
    if a.Some? then a else b
  }

  /** `round(n / d, 2)` in hundredths; null for a null n and for a zero d. */
  function Hundredths(n: Option<int>, d: int): Option<int> {
    if n.None? || d == 0 then None else Some(Rounded(100 * n.value, d))
  }

  /** `d - n` */
  function Left(n: Option<int>, d: int): Option<int> {
    if n.None? then None else Some(d - n.value)
  }

  // ----- setSerList.php -----

  /** A row of the wear list: the two ratios, in hundredths. */
  datatype Wear = Wear(kind: Kind, dist: Option<int>, diff: Option<int>)

  /** `ifnull(round(since / stdkm, 2), round(ifnull(sum, 0) / stdkm, 2))` */
  function DistanceRatio(t: Books, carIdx: int, last: Option<Date>, stdkm: int): Option<int> {
    IfNull(Hundredths(SinceLast(t, carIdx, last), stdkm),
           Hundredths(Some(SqlSum(DrivesOf(t, carIdx), Distance).GetOr(0)), stdkm))
  }

  function WearOf(t: Books, carIdx: int): Kind -> Wear {
    (k: Kind) =>
      var last := LastDone(t, carIdx, k);
      Wear(k,
           DistanceRatio(t, carIdx, last, k.stdkm),
           if k.stdmth == 0 then Some(0) else Hundredths(MonthsSince(t, carIdx, last), k.stdmth))
  }

  /** `case when dist > diff then dist else diff end` */
  function Worse(w: Wear): Option<int> {
    if w.dist.Some? && w.diff.Some? && w.dist.value > w.diff.value then w.dist else w.diff
  }

  /** `order by ... desc`, nulls last. */
  predicate MoreWorn(a: Wear, b: Wear) {
    Worse(b).None? || (Worse(a).Some? && Worse(a).value >= Worse(b).value)
  }

  ghost predicate IsSerList(t: Books, carIdx: int, out: seq<Wear>) {
    Arrangement(Map(t.kinds, WearOf(t, carIdx)), out, MoreWorn)
  }

  /** Neither ratio of b exceeds both of a; a row without a month ratio comes last. */
  predicate AsWorn(a: Wear, b: Wear) {
    b.diff.Some? ==>
      && a.diff.Some?
      && (b.diff.value <= a.diff.value || (a.dist.Some? && b.diff.value <= a.dist.value))
      && (b.dist.Some? ==> b.dist.value <= a.diff.value || (a.dist.Some? && b.dist.value <= a.dist.value))
  }

  function WearKind(w: Wear): Kind { w.kind }

  /** The list has every type as often as the table, in order of the larger ratio. */
  lemma SerListRows(t: Books, carIdx: int, out: seq<Wear>)
    requires IsSerList(t, carIdx, out)
    ensures multiset(Map(out, WearKind)) == multiset(t.kinds)
    ensures forall i, j :: 0 <= i < j < |out| ==> AsWorn(out[i], out[j])
  {
    var rows := Map(t.kinds, WearOf(t, carIdx));
    MapPermutes(out, rows, WearKind);
    assert Map(rows, WearKind) == t.kinds;
    forall i, j | 0 <= i < j < |out| ensures AsWorn(out[i], out[j]) {
      assert MoreWorn(out[i], out[j]);
    }
  }

  method SetSerList(t: Books, carIdx: int) returns (arr: seq<Wear>)
    ensures IsSerList(t, carIdx, arr)
    ensures multiset(Map(arr, WearKind)) == multiset(t.kinds)
    ensures forall i, j :: 0 <= i < j < |arr| ==> AsWorn(arr[i], arr[j])
  {
    assert TotalPreorder(MoreWorn);
    OrderByArranges(Map(t.kinds, WearOf(t, carIdx)), MoreWorn);
    var result := new ResultSet(OrderBy(Map(t.kinds, WearOf(t, carIdx)), MoreWorn));
    arr := FetchAll(result);
    SerListRows(t, carIdx, arr);
  }

  // ----- setRecord.php -----

  /** `ifnull(stdkm - since, stdkm - sum)`: here the sum over no drives stays null. */
  function KmLeft(t: Books, carIdx: int, k: Kind): Option<int> {
    IfNull(Left(SinceLast(t, carIdx, LastDone(t, carIdx, k)), k.stdkm),
           Left(SqlSum(DrivesOf(t, carIdx), Distance), k.stdkm))
  }

  function MonthsLeft(t: Books, carIdx: int, k: Kind): Option<int> {
    if k.stdmth == 0 then Some(0) else Left(MonthsSince(t, carIdx, LastDone(t, carIdx, k)), k.stdmth)
  }

  function Negative(n: Option<int>): bool {
    n.Some? && n.value < 0
  }

  /** `having dist < 0 or diff < 0` */
  function Overdue(t: Books, carIdx: int): Kind -> bool {
    (k: Kind) => Negative(KmLeft(t, carIdx, k)) || Negative(MonthsLeft(t, carIdx, k))
  }

  lemma AllTimeFigures(t: Books, carIdx: int)
    ensures AllOil(t, carIdx) == Add(t.oils, OilShare(carIdx, Ever()))
    ensures AllRepair(t, carIdx) == Add(t.repairs, RepairShare(carIdx, Ever()))
  {
    PlainFigures(OilsOf(t, carIdx), RepairsOf(t, carIdx), []);
    AddFiltered(t.oils, Equals(OilCar, Some(carIdx)), OilCharge, OilShare(carIdx, Ever()));
    AddFiltered(t.repairs, Equals(RepairCar, Some(carIdx)), RepairCharge, RepairShare(carIdx, Ever()));
  }

  /** The money and distance rows, and the number of overdue types that is appended. */
  method SetRecord(t: Books, carIdx: int) returns (arr: seq<Option<int>>, num: nat)
    ensures arr == [Some(Add(t.oils, OilShare(carIdx, Ever()))), CurrentReading(t, carIdx),
                    Some(Add(t.repairs, RepairShare(carIdx, Ever())))]
    ensures forall initial :: Metered(t, carIdx, initial) ==> arr[1] == Some(initial + Total(t, carIdx))
    ensures num == |Filter(t.kinds, Overdue(t, carIdx))|
    ensures (forall k :: k in t.kinds ==> Agree(t, carIdx, k)) ==>
              |Filter(t.kinds, WornBy(t, carIdx, 101))| <= num <= |Filter(t.kinds, WornBy(t, carIdx, 100))|
  {
    var result2 := new ResultSet(Filter(t.kinds, Overdue(t, carIdx)));
    num := |result2.rows|;
    var result := new ResultSet([Some(AllOil(t, carIdx)), CurrentReading(t, carIdx), Some(AllRepair(t, carIdx))]);
    arr := FetchAll(result);
    AllTimeFigures(t, carIdx);
    forall initial | Metered(t, carIdx, initial) ensures arr[1] == Some(initial + Total(t, carIdx)) {
      CurrentIsTotal(t, carIdx, initial);
    }
    if forall k :: k in t.kinds ==> Agree(t, carIdx, k) {
      OverdueCountBounds(t, carIdx);
    }
  }

  // ----- what the columns mean -----

  /** m whole months fit between a and b: moved on by m months a does not pass b, by one more it
      does. */
  predicate WholeMonths(a: Date, b: Date, m: int) {
    && (MonthIndex(a) + m < MonthIndex(b) || (MonthIndex(a) + m == MonthIndex(b) && a.day <= b.day))
    && (MonthIndex(a) + m + 1 > MonthIndex(b) || (MonthIndex(a) + m + 1 == MonthIndex(b) && a.day > b.day))
  }

  /** The car's repairs of the type were last made on the day. */
  ghost predicate LastRepaired(t: Books, carIdx: int, mainType: int, last: Date) {
    && (exists r :: r in t.repairs && r.carIdx == carIdx && r.mainType == mainType && r.date == last)
    && (forall r :: r in t.repairs && r.carIdx == carIdx && r.mainType == mainType ==> OnOrBefore(r.date, last))
  }

  ghost predicate NeverRepaired(t: Books, carIdx: int, mainType: int) {
    forall r :: r in t.repairs && r.carIdx == carIdx ==> r.mainType != mainType
  }

  lemma LatestMeans(dates: seq<Date>, last: Date)
    ensures Latest(dates) == Some(last) <==> last in dates && forall d :: d in dates ==> OnOrBefore(d, last)
  {
    EmptyOrMember(dates);
    var latest := Latest(dates);
    if latest.Some? && last in dates && forall d :: d in dates ==> OnOrBefore(d, last) {
      assert OnOrBefore(latest.value, last) && OnOrBefore(last, latest.value);
    }
  }

  lemma RepairDates(t: Books, carIdx: int, k: Kind, date: Date)
    ensures date in Map(RepairsFor(t, carIdx, k), RepairDate) <==>
            exists r :: r in t.repairs && r.carIdx == carIdx && r.mainType == k.mainType && r.date == date
  {
    var repairs := RepairsFor(t, carIdx, k);
    forall r ensures r in repairs <==> r in t.repairs && r.carIdx == carIdx && r.mainType == k.mainType {
      assert r in repairs <==> r in RepairsOf(t, carIdx) && RepairKind(r) == k.mainType;
    }
    MapMembers(repairs, RepairDate, date);
  }

  lemma LastDoneMeans(t: Books, carIdx: int, k: Kind)
    ensures LastDone(t, carIdx, k).None? <==> NeverRepaired(t, carIdx, k.mainType)
    ensures forall last :: LastDone(t, carIdx, k) == Some(last) <==> LastRepaired(t, carIdx, k.mainType, last)
  {
    var dates := Map(RepairsFor(t, carIdx, k), RepairDate);
    JoinKeepsLastDone(t, carIdx, k);
    EmptyOrMember(dates);
    forall date ensures date in dates <==>
      exists r :: r in t.repairs && r.carIdx == carIdx && r.mainType == k.mainType && r.date == date
    {
      RepairDates(t, carIdx, k, date);
    }
    if dates == [] {
      forall r | r in t.repairs && r.carIdx == carIdx ensures r.mainType != k.mainType {
        assert r.date in dates <==> r.date in [];
      }
    }
    forall last ensures Latest(dates) == Some(last) <==> LastRepaired(t, carIdx, k.mainType, last) {
      LatestMeans(dates, last);
    }
  }

  /** The month column after a repair is of the whole months since, and the type is overdue by
      months exactly when more than its standard fit. */
  lemma MonthsSinceRepair(t: Books, carIdx: int, k: Kind, last: Date, m: int)
    requires LastRepaired(t, carIdx, k.mainType, last) && Valid(last) && OnOrBefore(last, Date(2023, 7, 1))
    requires k.stdmth > 0 && WholeMonths(last, Date(2023, 7, 1), m)
    ensures WearOf(t, carIdx)(k).diff == Some(Rounded(100 * m, k.stdmth))
    ensures Overdue(t, carIdx)(k) <==> Negative(KmLeft(t, carIdx, k)) || m > k.stdmth
  {
    LastDoneMeans(t, carIdx, k);
    MonthsBetweenFit(last, TODAY);
    assert m == MonthsBetween(last, TODAY);
  }

  /** Without a repair it is of the months since the registration month. */
  lemma MonthsSinceRegistration(t: Books, carIdx: int, k: Kind, year: int, month: int)
    requires NeverRepaired(t, carIdx, k.mainType) && k.stdmth > 0 && 1 <= month <= 12
    requires RegisterRows(t, carIdx) != [] && RegisterRows(t, carIdx)[0].registDe == Some(100 * year + month)
    ensures var m := (12 * 2023 + 7) - (12 * year + month);
            && WearOf(t, carIdx)(k).diff == Some(Rounded(100 * m, k.stdmth))
            && (Overdue(t, carIdx)(k) <==> Negative(KmLeft(t, carIdx, k)) || m > k.stdmth)
  {
    LastDoneMeans(t, carIdx, k);
    PeriodDiffCounts(Date(year, month, 1));
  }

  /** A type without a month standard is never overdue by months. */
  lemma NoMonthStandard(t: Books, carIdx: int, k: Kind)
    requires k.stdmth == 0
    ensures WearOf(t, carIdx)(k).diff == Some(0)
    ensures Overdue(t, carIdx)(k) <==> Negative(KmLeft(t, carIdx, k))
  {
  }

  // ----- which distance is shown -----

  /** What a drive adds to the car's distance since the day. */
  function ShareSince(carIdx: int, last: Date): Drive -> int {
    (d: Drive) => if d.carIdx == carIdx && OnOrBefore(last, d.date) then d.distance.GetOr(0) else 0
  }

  function DistanceSince(t: Books, carIdx: int, last: Date): int {
    Add(t.drives, ShareSince(carIdx, last))
  }

  /** Some drive with a distance is dated on or after the day. */
  ghost predicate DroveSince(t: Books, carIdx: int, last: Date) {
    exists d :: d in t.drives && d.carIdx == carIdx && OnOrBefore(last, d.date) && d.distance.Some?
  }

  /** Some drive of the car has a distance. */
  ghost predicate Drove(t: Books, carIdx: int) {
    exists d :: d in t.drives && d.carIdx == carIdx && d.distance.Some?
  }

  lemma SinceLastIs(t: Books, carIdx: int, last: Date)
    ensures SinceLast(t, carIdx, Some(last)) ==
            if DroveSince(t, carIdx, last) then Some(DistanceSince(t, carIdx, last)) else None
    ensures !DroveSince(t, carIdx, last) ==> DistanceSince(t, carIdx, last) == 0
  {
    var since := Filter(DrivesOf(t, carIdx), Since(last));
    SqlSumNull(since, Distance);
    DrivenSum(since);
    var p := Equals(DriveCar, Some(carIdx));
    FilterFilter(t.drives, p, Since(last));
    AddFiltered(t.drives, And(p, Since(last)), Driven, ShareSince(carIdx, last));
    if DroveSince(t, carIdx, last) {
      var d :| d in t.drives && d.carIdx == carIdx && OnOrBefore(last, d.date) && d.distance.Some?;
      assert d in since;
    }
  }

  /** A type is overdue by distance when more than its standard was driven since its last repair,
      or if nothing was, ever. */
  lemma DistanceOverdue(t: Books, carIdx: int, k: Kind, last: Date)
    requires LastRepaired(t, carIdx, k.mainType, last)
    ensures Negative(KmLeft(t, carIdx, k)) <==>
            if DroveSince(t, carIdx, last) then DistanceSince(t, carIdx, last) > k.stdkm
            else Drove(t, carIdx) && Total(t, carIdx) > k.stdkm
  {
    LastDoneMeans(t, carIdx, k);
    SinceLastIs(t, carIdx, last);
    WholeDistance(t, carIdx);
  }

  lemma WholeDistance(t: Books, carIdx: int)
    ensures SqlSum(DrivesOf(t, carIdx), Distance) == if Drove(t, carIdx) then Some(Total(t, carIdx)) else None
    ensures !Drove(t, carIdx) ==> Total(t, carIdx) == 0
  {
    SqlSumNull(DrivesOf(t, carIdx), Distance);
    DrivenSum(DrivesOf(t, carIdx));
    if Drove(t, carIdx) {
      var d :| d in t.drives && d.carIdx == carIdx && d.distance.Some?;
      assert d in DrivesOf(t, carIdx);
    }
  }

  /** Without a repair the whole distance counts. */
  lemma NeverRepairedDistance(t: Books, carIdx: int, k: Kind)
    requires NeverRepaired(t, carIdx, k.mainType) && k.stdkm > 0
    ensures WearOf(t, carIdx)(k).dist == Some(Rounded(100 * Total(t, carIdx), k.stdkm))
    ensures Negative(KmLeft(t, carIdx, k)) <==> Total(t, carIdx) > k.stdkm
  {
    LastDoneMeans(t, carIdx, k);
    WholeDistance(t, carIdx);
  }

  /** The wear column is of the distance since the last repair, but of the whole distance if
      nothing was driven since. */
  lemma RatioSinceRepair(t: Books, carIdx: int, last: Date, stdkm: int)
    requires stdkm > 0
    ensures DistanceRatio(t, carIdx, Some(last), stdkm) ==
            Some(if DroveSince(t, carIdx, last) then Rounded(100 * DistanceSince(t, carIdx, last), stdkm)
                 else Rounded(100 * Total(t, carIdx), stdkm))
    ensures !DroveSince(t, carIdx, last) ==> Rounded(100 * DistanceSince(t, carIdx, last), stdkm) == 0
  {
    SinceLastIs(t, carIdx, last);
    DrivenSum(DrivesOf(t, carIdx));
    RoundedClose(0, stdkm);
  }

  /** So it shows the distance since the repair exactly when something was driven since, or the
      whole distance rounds to nothing. */
  lemma WearSinceRepair(t: Books, carIdx: int, k: Kind, last: Date)
    requires LastDone(t, carIdx, k) == Some(last) && k.stdkm > 0
    ensures WearOf(t, carIdx)(k).dist == Some(Rounded(100 * DistanceSince(t, carIdx, last), k.stdkm)) <==>
            DroveSince(t, carIdx, last) || Rounded(100 * Total(t, carIdx), k.stdkm) == 0
    ensures !DroveSince(t, carIdx, last) ==>
              WearOf(t, carIdx)(k).dist == Some(Rounded(100 * Total(t, carIdx), k.stdkm))
  {
    RatioSinceRepair(t, carIdx, last, k.stdkm);
    assert WearOf(t, carIdx)(k).dist == DistanceRatio(t, carIdx, Some(last), k.stdkm);
  }

  /** A type repaired after the car's last drive counts as overdue as soon as the car was ever
      driven beyond the standard. */
  lemma RepairedButOverdue(t: Books, carIdx: int, k: Kind, last: Date)
    requires LastDone(t, carIdx, k) == Some(last) && !DroveSince(t, carIdx, last)
    requires 0 < k.stdkm < Total(t, carIdx)
    ensures Overdue(t, carIdx)(k)
  {
    SinceLastIs(t, carIdx, last);
    DrivenSum(DrivesOf(t, carIdx));
  }

  /** One drive beyond the standard, then one repair. */
  lemma FreshRepairOverdue(t: Books, d: Drive, r: Repair, k: Kind)
    requires t.drives == [d] && t.repairs == [r] && r.carIdx == d.carIdx && r.mainType == k.mainType
    requires Precedes(d.date, r.date) && 0 < k.stdkm < Driven(d)
    ensures Overdue(t, d.carIdx)(k)
  {
    FilterAll(t.drives, Equals(DriveCar, Some(d.carIdx)));
    FilterAll(t.repairs, Equals(RepairCar, Some(d.carIdx)));
    assert Having(RepairKind, k.mainType)(r);
    FilterAll(t.repairs, Having(RepairKind, k.mainType));
    JoinKeepsLastDone(t, d.carIdx, k);
    assert Map([r], RepairDate) == [r.date];
    assert Latest([r.date]) == Some(r.date);
    assert Add([d], Driven) == Driven(d);
    RepairedButOverdue(t, d.carIdx, k, r.date);
  }

  // ----- agreement -----

  lemma MulMonotone(d: int, a: int, b: int)
    requires d > 0 && a <= b
    ensures d * a <= d * b
  {
  }

  lemma NearOne(n: int, d: int, q: int)
    requires d > 0 && -d <= 2 * (d * q - 100 * n) <= d
    ensures q > 100 ==> n > d
    ensures n > d ==> q >= 100
  {
    if q > 100 {
      MulMonotone(d, 101, q);
    }
    if q < 100 {
      MulMonotone(d, q, 99);
    }
  }

  /** Past 1.00 after rounding means past the standard; past the standard means at least
      1.00 after rounding. */
  lemma RoundedAgainstOne(n: int, d: int)
    requires d > 0
    ensures Rounded(100 * n, d) > 100 ==> n > d
    ensures n > d ==> Rounded(100 * n, d) >= 100
  {
    RoundedClose(100 * n, d);
    NearOne(n, d, Rounded(100 * n, d));
  }

  /** The type has a standard distance, and a standard of months or none. */
  predicate Standard(k: Kind) {
    k.stdkm > 0 && k.stdmth >= 0
  }

  predicate MonthsKnown(t: Books, carIdx: int, k: Kind) {
    k.stdmth == 0 || MonthsSince(t, carIdx, LastDone(t, carIdx, k)).Some?
  }

  /** The type's standards can be compared: distance is set, and months are known if asked. */
  predicate Comparable(t: Books, carIdx: int, k: Kind) {
    Standard(k) && MonthsKnown(t, carIdx, k)
  }

  lemma DistanceAgrees(t: Books, carIdx: int, k: Kind)
    requires k.stdkm > 0
    ensures var dist := WearOf(t, carIdx)(k).dist;
            && dist.Some?
            && (dist.value > 100 ==> Negative(KmLeft(t, carIdx, k)))
            && (Negative(KmLeft(t, carIdx, k)) ==> dist.value >= 100)
  {
    var since, all := SinceLast(t, carIdx, LastDone(t, carIdx, k)), SqlSum(DrivesOf(t, carIdx), Distance);
    RoundedAgainstOne(if since.Some? then since.value else all.GetOr(0), k.stdkm);
  }

  lemma MonthsAgree(t: Books, carIdx: int, k: Kind)
    requires Comparable(t, carIdx, k)
    ensures var diff := WearOf(t, carIdx)(k).diff;
            && diff.Some?
            && (diff.value > 100 ==> Negative(MonthsLeft(t, carIdx, k)))
            && (Negative(MonthsLeft(t, carIdx, k)) ==> diff.value >= 100)
  {
    if k.stdmth > 0 {
      RoundedAgainstOne(MonthsSince(t, carIdx, LastDone(t, carIdx, k)).value, k.stdmth);
    }
  }

  /** The two scripts classify a type alike, up to a ratio of exactly 1.00. */
  lemma WearAgreesWithOverdue(t: Books, carIdx: int, k: Kind)
    requires Comparable(t, carIdx, k)
    ensures Worse(WearOf(t, carIdx)(k)).Some?
    ensures Worse(WearOf(t, carIdx)(k)).value > 100 ==> Overdue(t, carIdx)(k)
    ensures Overdue(t, carIdx)(k) ==> Worse(WearOf(t, carIdx)(k)).value >= 100
  {
    DistanceAgrees(t, carIdx, k);
    MonthsAgree(t, carIdx, k);
  }

  /** A type with a month standard but unknown months has no place by wear, and is overdue by
      its distance alone. */
  lemma UnknownMonths(t: Books, carIdx: int, k: Kind)
    requires Standard(k) && !MonthsKnown(t, carIdx, k)
    ensures Worse(WearOf(t, carIdx)(k)).None?
    ensures Overdue(t, carIdx)(k) <==> Negative(KmLeft(t, carIdx, k))
  {
  }

  /** The list and the count classify the type alike, up to a ratio of exactly 1.00. */
  ghost predicate Agree(t: Books, carIdx: int, k: Kind) {
    && (WornBy(t, carIdx, 101)(k) ==> Overdue(t, carIdx)(k))
    && (Overdue(t, carIdx)(k) ==> WornBy(t, carIdx, 100)(k))
  }

  /** They do so exactly for comparable types and those whose distance is not overdue. */
  lemma AgreeExactly(t: Books, carIdx: int, k: Kind)
    requires Standard(k)
    ensures Agree(t, carIdx, k) <==> Comparable(t, carIdx, k) || !Negative(KmLeft(t, carIdx, k))
  {
    if Comparable(t, carIdx, k) {
      WearAgreesWithOverdue(t, carIdx, k);
    } else {
      UnknownMonths(t, carIdx, k);
    }
  }

  /** The overdue types come first in the wear list, up to ties at 1.00. */
  ghost predicate OverdueFirst(t: Books, carIdx: int, out: seq<Wear>) {
    forall i, j :: 0 <= i < j < |out| && Overdue(t, carIdx)(out[j].kind) ==>
      Overdue(t, carIdx)(out[i].kind) || Worse(out[i]) == Worse(out[j]) == Some(100)
  }

  /** Some overdue type has unknown months. */
  ghost predicate OverdueUnknown(t: Books, carIdx: int) {
    exists k :: k in t.kinds && Overdue(t, carIdx)(k) && !MonthsKnown(t, carIdx, k)
  }

  /** A pair of rows of which the second is overdue. */
  lemma PairInOrder(t: Books, carIdx: int, out: seq<Wear>, i: nat, j: nat)
    requires IsSerList(t, carIdx, out) && i < j < |out|
    requires forall k :: k in t.kinds ==> Standard(k)
    requires Overdue(t, carIdx)(out[j].kind) && MonthsKnown(t, carIdx, out[j].kind)
    ensures Overdue(t, carIdx)(out[i].kind) || Worse(out[i]) == Worse(out[j]) == Some(100)
  {
    WearListed(t, carIdx, out, out[i]);
    WearListed(t, carIdx, out, out[j]);
    WearAgreesWithOverdue(t, carIdx, out[j].kind);
    assert MoreWorn(out[i], out[j]);
    if MonthsKnown(t, carIdx, out[i].kind) {
      WearAgreesWithOverdue(t, carIdx, out[i].kind);
    } else {
      UnknownMonths(t, carIdx, out[i].kind);
    }
  }

  /** An overdue type with unknown months can be listed behind one that is not overdue. */
  lemma OverdueBehind(t: Books, carIdx: int, k: Kind, other: Kind) returns (out: seq<Wear>)
    requires Standard(k) && k in t.kinds && Overdue(t, carIdx)(k) && !MonthsKnown(t, carIdx, k)
    requires other in t.kinds && !Overdue(t, carIdx)(other)
    ensures IsSerList(t, carIdx, out) && !OverdueFirst(t, carIdx, out)
  {
    var rows, p := Map(t.kinds, WearOf(t, carIdx)), (w: Wear) => !Overdue(t, carIdx)(w.kind);
    var a, b := WearOf(t, carIdx)(other), WearOf(t, carIdx)(k);
    MapMembers(t.kinds, WearOf(t, carIdx), a);
    MapMembers(t.kinds, WearOf(t, carIdx), b);
    UnknownMonths(t, carIdx, k);
    assert TotalPreorder(MoreWorn) && MoreWorn(a, b);
    var i, j;
    out, i, j := TieBroken(rows, MoreWorn, p, a, b);
    assert out[j].kind == k && out[i].kind == other && Worse(out[j]).None?;
  }

  /** Every list the script may return has the overdue types first exactly when no overdue type
      has unknown months, or all types are overdue. */
  lemma OverdueFirstExactly(t: Books, carIdx: int)
    requires forall k :: k in t.kinds ==> Standard(k)
    ensures (forall out :: IsSerList(t, carIdx, out) ==> OverdueFirst(t, carIdx, out)) <==>
            !OverdueUnknown(t, carIdx) || forall k :: k in t.kinds ==> Overdue(t, carIdx)(k)
  {
    if OverdueUnknown(t, carIdx) && exists k :: k in t.kinds && !Overdue(t, carIdx)(k) {
      var k :| k in t.kinds && Overdue(t, carIdx)(k) && !MonthsKnown(t, carIdx, k);
      var other :| other in t.kinds && !Overdue(t, carIdx)(other);
      var out := OverdueBehind(t, carIdx, k, other);
    } else {
      forall out | IsSerList(t, carIdx, out) ensures OverdueFirst(t, carIdx, out) {
        ListedInOrder(t, carIdx, out);
      }
    }
  }

  lemma ListedInOrder(t: Books, carIdx: int, out: seq<Wear>)
    requires IsSerList(t, carIdx, out) && forall k :: k in t.kinds ==> Standard(k)
    requires !OverdueUnknown(t, carIdx) || forall k :: k in t.kinds ==> Overdue(t, carIdx)(k)
    ensures OverdueFirst(t, carIdx, out)
  {
    forall i, j | 0 <= i < j < |out| && Overdue(t, carIdx)(out[j].kind)
      ensures Overdue(t, carIdx)(out[i].kind) || Worse(out[i]) == Worse(out[j]) == Some(100)
    {
      WearListed(t, carIdx, out, out[i]);
      WearListed(t, carIdx, out, out[j]);
      if MonthsKnown(t, carIdx, out[j].kind) {
        PairInOrder(t, carIdx, out, i, j);
      }
    }
  }

  lemma WearListed(t: Books, carIdx: int, out: seq<Wear>, w: Wear)
    requires IsSerList(t, carIdx, out) && w in out
    ensures w.kind in t.kinds && w == WearOf(t, carIdx)(w.kind)
  {
    ArrangementMembers(Map(t.kinds, WearOf(t, carIdx)), out, MoreWorn);
    MapMembers(t.kinds, WearOf(t, carIdx), w);
  }

  function WornBy(t: Books, carIdx: int, hundredths: int): Kind -> bool {
    (k: Kind) => Worse(WearOf(t, carIdx)(k)).Some? && Worse(WearOf(t, carIdx)(k)).value >= hundredths
  }

  /** The overdue count lies between the number of types above 1.00 and of those at 1.00 or
      above, when the two scripts agree on each type. */
  lemma OverdueCountBounds(t: Books, carIdx: int)
    requires forall k :: k in t.kinds ==> Agree(t, carIdx, k)
    ensures |Filter(t.kinds, WornBy(t, carIdx, 101))| <= |Filter(t.kinds, Overdue(t, carIdx))|
            <= |Filter(t.kinds, WornBy(t, carIdx, 100))|
  {
    FilterSubset(t.kinds, WornBy(t, carIdx, 101), Overdue(t, carIdx));
    FilterSubset(t.kinds, Overdue(t, carIdx), WornBy(t, carIdx, 100));
  }

  /** A type with a month standard but unknown months is listed behind every comparable one,
      even when its distance makes it overdue. */
  lemma UnknownMonthsSink(t: Books, carIdx: int, out: seq<Wear>, i: nat, j: nat)
    requires IsSerList(t, carIdx, out) && i < |out| && j < |out|
    requires Comparable(t, carIdx, out[i].kind)
    requires out[j].kind.stdmth != 0 && MonthsSince(t, carIdx, LastDone(t, carIdx, out[j].kind)).None?
    ensures i < j
    ensures Overdue(t, carIdx)(out[j].kind) <==> Negative(KmLeft(t, carIdx, out[j].kind))
  {
    WearListed(t, carIdx, out, out[i]);
    WearListed(t, carIdx, out, out[j]);
    WearAgreesWithOverdue(t, carIdx, out[i].kind);
    assert Worse(out[j]).None?;
    assert !MoreWorn(out[j], out[i]);
    assert i != j;
  }

  /** An unregistered car driven beyond one standard but not beyond the other: the type with a
      month standard is overdue, yet can be listed behind the one that is not. */
  lemma UnregisteredBehind(t: Books, d: Drive, k: Kind, other: Kind)
    requires t.drives == [d] && t.repairs == [] && t.cars == [] && t.kinds == [k, other]
    requires 0 < k.stdkm < Driven(d) <= other.stdkm && k.stdmth > 0 && other.stdmth == 0
    ensures exists out :: IsSerList(t, d.carIdx, out) && !OverdueFirst(t, d.carIdx, out)
  {
    FilterAll(t.drives, Equals(DriveCar, Some(d.carIdx)));
    assert RepairsFor(t, d.carIdx, k) == [] && RepairsFor(t, d.carIdx, other) == [];
    JoinKeepsLastDone(t, d.carIdx, k);
    JoinKeepsLastDone(t, d.carIdx, other);
    assert RegisterRows(t, d.carIdx) == [];
    DrivenSum([d]);
    assert Add([d], Driven) == Driven(d);
    assert k in t.kinds && other in t.kinds;
    var out := OverdueBehind(t, d.carIdx, k, other);
  }
}
