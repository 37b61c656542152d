/** The car ledger's tables and the arithmetic its queries share. */
module Ledger {
  import opened Relational
  import opened Market

  datatype Date = Date(year: int, month: int, day: int)

  predicate Valid(d: Date) {
    1 <= d.month <= 12 && 1 <= d.day <= 31
  }

  /** Calendar order. */
  predicate OnOrBefore(a: Date, b: Date) {
    a.year < b.year || (a.year == b.year && (a.month < b.month || (a.month == b.month && a.day <= b.day)))
  }

  predicate Precedes(a: Date, b: Date) {
    OnOrBefore(a, b) && a != b
  }

  /** The later of two dates. */
  function Later(a: Date, b: Date): Date {
    if OnOrBefore(a, b) then b else a
  }

  /** `max(date)`, null over nothing. */
  function Latest(dates: seq<Date>): (r: Option<Date>)
    ensures r.None? <==> dates == []
    ensures r.Some? ==> r.value in dates && forall d :: d in dates ==> OnOrBefore(d, r.value)
  {
    if dates == [] then None
    else
      var rest := Latest(dates[1..]);
      assert forall d :: d in dates <==> d == dates[0] || d in dates[1..];
      if rest.None? then Some(dates[0]) else Some(Later(dates[0], rest.value))
  }

  datatype Drive = Drive(driveIdx: int, carIdx: int, date: Date, distance: Option<int>, memo: string)
  datatype Oil = Oil(carIdx: int, date: Date, charge: int)
  datatype Repair = Repair(carIdx: int, date: Date, charge: int, mainType: int)
  /** A maintenance type with its standard distance and months. */
  datatype Kind = Kind(mainType: int, stdkm: int, stdmth: int)

  datatype Books = Books(cars: seq<Car>, refer: seq<Refer>, drives: seq<Drive>, oils: seq<Oil>,
                         repairs: seq<Repair>, kinds: seq<Kind>)

  function DriveKey(d: Drive): int { d.driveIdx }
  function DriveCar(d: Drive): int { d.carIdx }
  function DriveDate(d: Drive): Date { d.date }
  function DriveYear(d: Drive): int { d.date.year }
  function DriveMonth(d: Drive): int { d.date.month }
  function Distance(d: Drive): Option<int> { d.distance }
  function Driven(d: Drive): int { d.distance.GetOr(0) }
  function OilCharge(o: Oil): int { o.charge }
  function RepairCharge(r: Repair): int { r.charge }
  function OilCar(o: Oil): int { o.carIdx }
  function OilYear(o: Oil): int { o.date.year }
  function OilMonth(o: Oil): int { o.date.month }
  function RepairCar(r: Repair): int { r.carIdx }
  function RepairYear(r: Repair): int { r.date.year }
  function RepairMonth(r: Repair): int { r.date.month }
  function PlateOf(r: Refer): string { r.vhrno }

  function DrivesOf(t: Books, carIdx: int): seq<Drive> {
    Lookup(t.drives, DriveCar, Some(carIdx))
  }

  function OilsOf(t: Books, carIdx: int): seq<Oil> {
    Lookup(t.oils, OilCar, Some(carIdx))
  }

  function RepairsOf(t: Books, carIdx: int): seq<Repair> {
    Lookup(t.repairs, RepairCar, Some(carIdx))
  }

  /** The register rows of the car's plate: `car.plnumber = refer.vhrno`. */
  function ReferOf(refer: seq<Refer>): Car -> seq<Refer> {
    (c: Car) => Lookup(refer, PlateOf, Some(c.plnumber))
  }

  /** They are the register's rows under the plate of a car with the id. */
  lemma RegisterRowsMembers(t: Books, carIdx: int, r: Refer)
    ensures r in RegisterRows(t, carIdx) <==>
            r in t.refer && exists c :: c in t.cars && c.carIdx == carIdx && c.plnumber == r.vhrno
  {
    FlatMapMembers(Lookup(t.cars, CarKey, Some(carIdx)), ReferOf(t.refer), r);
  }

  function RegisterRows(t: Books, carIdx: int): seq<Refer> {
    FlatMap(Lookup(t.cars, CarKey, Some(carIdx)), ReferOf(t.refer))
  }

  /** The car is registered once, with initial odometer reading `initial`. */
  predicate Metered(t: Books, carIdx: int, initial: int) {
    |RegisterRows(t, carIdx)| == 1 && RegisterRows(t, carIdx)[0].trvlDstnc == Some(initial)
  }

  // ----- what a row adds to a figure of a car over some time -----

  function Yearly(year: int): Date -> bool {
    (d: Date) => d.year == year
  }

  function Monthly(year: int, month: int): Date -> bool {
    (d: Date) => d.year == year && d.month == month
  }

  /** On the day or before it. */
  function Until(last: Date): Date -> bool {
    (d: Date) => d.year < last.year || (d.year == last.year && d.month < last.month) ||
      (d.year == last.year && d.month == last.month && d.day <= last.day)
  }

  function Ever(): Date -> bool {
    (d: Date) => true
  }

  function OilShare(carIdx: int, within: Date -> bool): Oil -> int {
    (o: Oil) => if o.carIdx == carIdx && within(o.date) then o.charge else 0
  }

  function RepairShare(carIdx: int, within: Date -> bool): Repair -> int {
    (r: Repair) => if r.carIdx == carIdx && within(r.date) then r.charge else 0
  }

  function DriveShare(carIdx: int, within: Date -> bool): Drive -> int {
    (d: Drive) => if d.carIdx == carIdx && within(d.date) then d.distance.GetOr(0) else 0
  }

  /** Sums over a car's rows of a time are sums of the shares of all rows. */
  lemma OilSums(t: Books, carIdx: int, p: Oil -> bool, within: Date -> bool)
    requires forall o :: p(o) <==> within(o.date)
    ensures Add(Filter(OilsOf(t, carIdx), p), OilCharge) == Add(t.oils, OilShare(carIdx, within))
  {
    FilterFilter(t.oils, Equals(OilCar, Some(carIdx)), p);
    AddFiltered(t.oils, And(Equals(OilCar, Some(carIdx)), p), OilCharge, OilShare(carIdx, within));
  }

  lemma RepairSums(t: Books, carIdx: int, p: Repair -> bool, within: Date -> bool)
    requires forall r :: p(r) <==> within(r.date)
    ensures Add(Filter(RepairsOf(t, carIdx), p), RepairCharge) == Add(t.repairs, RepairShare(carIdx, within))
  {
    FilterFilter(t.repairs, Equals(RepairCar, Some(carIdx)), p);
    AddFiltered(t.repairs, And(Equals(RepairCar, Some(carIdx)), p), RepairCharge, RepairShare(carIdx, within));
  }

  lemma DriveSums(t: Books, carIdx: int, p: Drive -> bool, within: Date -> bool)
    requires forall d :: p(d) <==> within(d.date)
    ensures Add(Filter(DrivesOf(t, carIdx), p), Driven) == Add(t.drives, DriveShare(carIdx, within))
  {
    FilterFilter(t.drives, Equals(DriveCar, Some(carIdx)), p);
    AddFiltered(t.drives, And(Equals(DriveCar, Some(carIdx)), p), Driven, DriveShare(carIdx, within));
  }

  // ----- rounding -----

  /** `round(n / d)`: to the nearest integer, halves away from zero. */
  function Rounded(n: int, d: int): int
    requires d != 0
    decreases d < 0
  {
    if d < 0 then Rounded(-n, -d)
    else if n >= 0 then (2 * n + d) / (2 * d)
    else -((2 * -n + d) / (2 * d))
  }

  lemma DivisionBounds(a: int, b: int)
    requires b > 0
    ensures b * (a / b) <= a < b * (a / b) + b
  {
  }

  /** Rounding moves a quotient by at most one half, and a half away from zero. */
  lemma RoundedClose(n: int, d: int)
    requires d > 0
    ensures -d <= 2 * (d * Rounded(n, d) - n) <= d
    ensures n >= 0 ==> -d < 2 * (d * Rounded(n, d) - n)
    ensures n <= 0 ==> 2 * (d * Rounded(n, d) - n) < d
  {
    var m := if n >= 0 then n else -n;
    var q := (2 * m + d) / (2 * d);
    DivisionBounds(2 * m + d, 2 * d);
    assert 2 * d * q == 2 * (d * q);
    assert d * -q == -(d * q);
  }
}
