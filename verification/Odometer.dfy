/** Odometer readings stored as differences (addDist.php, updateDrive.php, delDrive.php) and
    read back as totals (setDist.php, setDriveList.php). */
module Odometer {
  import opened Relational
  import opened Mysqli
  import opened Market
  import opened Ledger

  /** A register row joined with a drive of the car, if there is one. */
  datatype Reading = Reading(refer: Refer, drive: Option<Drive>)

  function ReadingDistance(r: Reading): Option<int> {
    if r.drive.Some? then r.drive.value.distance else None
  }

  function WithDrives(drives: seq<Drive>): Refer -> seq<Reading> {
    (r: Refer) => Map(OrNull(drives), (d: Option<Drive>) => Reading(r, d))
  }

  /** `from car left outer join drive_history ..., refer where ...` */
  function ReadingRows(t: Books, carIdx: int): seq<Reading> {
    FlatMap(RegisterRows(t, carIdx), WithDrives(DrivesOf(t, carIdx)))
  }

  /** `ifnull(sum(distance), 0) + trvl_dstnc`, null without a register row. */
  function CurrentReading(t: Books, carIdx: int): Option<int> {
    var rows := ReadingRows(t, carIdx);
    if rows == [] || rows[0].refer.trvlDstnc.None? then None
    else Some(SqlSum(rows, ReadingDistance).GetOr(0) + rows[0].refer.trvlDstnc.value)
  }

  function UpTo(date: Date): Drive -> bool {
    (d: Drive) => OnOrBefore(d.date, date)
  }

  function AsReading(r: Refer): Drive -> Reading {
    (d: Drive) => Reading(r, Some(d))
  }

  function JustDrives(drives: seq<Drive>): Refer -> seq<Reading> {
    (r: Refer) => Map(drives, AsReading(r))
  }

  /** The `total` column for a row of the given date. */
  function RunningTotal(t: Books, carIdx: int, date: Date): Option<int> {
    var rows := FlatMap(RegisterRows(t, carIdx), JustDrives(Filter(DrivesOf(t, carIdx), UpTo(date))));
    var sum := SqlSum(rows, ReadingDistance);
    if sum.None? || rows[0].refer.trvlDstnc.None? then None
    else Some(sum.value + rows[0].refer.trvlDstnc.value)
  }

  // ----- the writing scripts -----

  function NextDrive(t: Books): int {
    SqlMax(t.drives, DriveKey).GetOr(0) + 1
  }

  lemma NextDriveUnused(t: Books)
    ensures forall d :: d in t.drives ==> d.driveIdx < NextDrive(t)
    ensures t.drives == [] ==> NextDrive(t) == 1
  {
    forall d | d in t.drives ensures d.driveIdx < NextDrive(t) {
      assert DriveKey(d) == d.driveIdx;
    }
  }

  /** The stored distance is the reading minus the current one, null if that is null. */
  function NewDrive(t: Books, carIdx: int, date: Date, reading: int, memo: string): Drive {
    var current := CurrentReading(t, carIdx);
    Drive(NextDrive(t), carIdx, date, if current.Some? then Some(reading - current.value) else None, memo)
  }

  function AddDist(t: Books, carIdx: int, date: Date, reading: int, memo: string): Books {
    t.(drives := t.drives + [NewDrive(t, carIdx, date, reading, memo)])
  }

  function Edited(driveIdx: int, date: Date, distance: int, memo: string): Drive -> Drive {
    (d: Drive) => if d.driveIdx == driveIdx then d.(date := date, distance := Some(distance), memo := memo) else d
  }

  function UpdateDrive(t: Books, driveIdx: int, date: Date, distance: int, memo: string): Books {
    t.(drives := Map(t.drives, Edited(driveIdx, date, distance, memo)))
  }

  function DelDrive(t: Books, driveIdx: int): Books {
    t.(drives := Delete(t.drives, DriveKey, driveIdx))
  }

  class Database {
    var db: Books

    method AddDistance(carIdx: int, date: Date, reading: int, memo: string)
      modifies this
      ensures db == AddDist(old(db), carIdx, date, reading, memo)
      ensures exists d :: db == old(db).(drives := old(db).drives + [d]) && d.carIdx == carIdx && d.date == date &&
                d.memo == memo && (forall x :: x in old(db).drives ==> x.driveIdx < d.driveIdx)
    {
      var dist := CurrentReading(db, carIdx);
      var distance := if dist.Some? then Some(reading - dist.value) else None;
      var d := Drive(NextDrive(db), carIdx, date, distance, memo);
      assert d == NewDrive(db, carIdx, date, reading, memo);
      NextDriveUnused(db);
      db := db.(drives := db.drives + [d]);
    }

    method UpdateDistance(driveIdx: int, date: Date, distance: int, memo: string)
      modifies this
      ensures db == UpdateDrive(old(db), driveIdx, date, distance, memo)
    {
      db := db.(drives := Map(db.drives, Edited(driveIdx, date, distance, memo)));
    }

    method DeleteDistance(driveIdx: int)
      modifies this
      ensures db == DelDrive(old(db), driveIdx)
    {
      db := db.(drives := Delete(db.drives, DriveKey, driveIdx));
    }

    /** The current reading and the date of the last drive, or today's. */
    method SetDist(carIdx: int, today: Date) returns (arr: seq<(Option<int>, Date)>)
      ensures |arr| == 1 && IsDist(db, carIdx, today, arr[0].0, arr[0].1)
    {
      var result := new ResultSet([(CurrentReading(db, carIdx), LastDriven(db, carIdx).GetOr(today))]);
      arr := FetchAll(result);
      DistMeans(db, carIdx, today);
    }

    /** The drives of one month in date order, each with its running total. */
    method SetDriveList(carIdx: int, year: int, month: int) returns (arr: seq<(Drive, Option<int>)>)
      ensures IsDriveList(db, carIdx, year, month, arr)
      ensures forall d :: multiset(Map(arr, RowDrive))[d] ==
                if d.carIdx == carIdx && d.date.year == year && d.date.month == month then multiset(db.drives)[d] else 0
      ensures forall i, j :: 0 <= i < j < |arr| ==> OnOrBefore(arr[i].0.date, arr[j].0.date)
    {
      assert TotalPreorder(Earlier);
      OrderByArranges(MonthDrives(db, carIdx, year, month), Earlier);
      var drives := OrderBy(MonthDrives(db, carIdx, year, month), Earlier);
      var t := db;
      var rows := Map(drives, (d: Drive) => (d, RunningTotal(t, carIdx, d.date)));
      assert Map(rows, RowDrive) == drives;
      var result := new ResultSet(rows);
      arr := FetchAll(result);
      forall d ensures multiset(Map(arr, RowDrive))[d] ==
        if d.carIdx == carIdx && d.date.year == year && d.date.month == month then multiset(db.drives)[d] else 0
      {
        ListedDrives(db, carIdx, year, month, arr, d);
      }
      ListedInOrder(db, carIdx, year, month, arr);
    }
  }

  function RowDrive(row: (Drive, Option<int>)): Drive { row.0 }

  predicate Earlier(a: Drive, b: Drive) {
    OnOrBefore(a.date, b.date)
  }

  function MonthDrives(t: Books, carIdx: int, year: int, month: int): seq<Drive> {
    Filter(DrivesOf(t, carIdx), OfMonth(year, month))
  }

  function OfMonth(year: int, month: int): Drive -> bool {
    (d: Drive) => d.date.year == year && d.date.month == month
  }

  /** The month's drives in date order, each with the total of its date. */
  ghost predicate IsDriveList(t: Books, carIdx: int, year: int, month: int, arr: seq<(Drive, Option<int>)>) {
    && multiset(Map(arr, RowDrive)) == multiset(MonthDrives(t, carIdx, year, month))
    && Sorted(Map(arr, RowDrive), Earlier)
    && forall i :: 0 <= i < |arr| ==> arr[i].1 == RunningTotal(t, carIdx, arr[i].0.date)
  }

  /** A list has a drive as often as the table does if it is the car's and of the month, and no
      other drive. */
  lemma ListedDrives(t: Books, carIdx: int, year: int, month: int, arr: seq<(Drive, Option<int>)>, d: Drive)
    requires IsDriveList(t, carIdx, year, month, arr)
    ensures multiset(Map(arr, RowDrive))[d] ==
            if d.carIdx == carIdx && d.date.year == year && d.date.month == month then multiset(t.drives)[d] else 0
  {
    FilterMultiplicity(DrivesOf(t, carIdx), OfMonth(year, month), d);
    FilterMultiplicity(t.drives, Equals(DriveCar, Some(carIdx)), d);
  }

  lemma ListedInOrder(t: Books, carIdx: int, year: int, month: int, arr: seq<(Drive, Option<int>)>)
    requires IsDriveList(t, carIdx, year, month, arr)
    ensures forall i, j :: 0 <= i < j < |arr| ==> OnOrBefore(arr[i].0.date, arr[j].0.date)
  {
    forall i, j | 0 <= i < j < |arr| ensures OnOrBefore(arr[i].0.date, arr[j].0.date) {
      assert Earlier(Map(arr, RowDrive)[i], Map(arr, RowDrive)[j]);
    }
  }

  /** `max(date)` over the same rows as the current reading. */
  function LastDriven(t: Books, carIdx: int): Option<Date> {
    if RegisterRows(t, carIdx) == [] then None else Latest(Map(DrivesOf(t, carIdx), DriveDate))
  }

  /** The reading is the current one: for a car registered once the initial one plus all
      distances, for one without a register row null.  The date is that of the last drive, or
      today's if there is none. */
  ghost predicate IsDist(t: Books, carIdx: int, today: Date, reading: Option<int>, date: Date) {
    && reading == CurrentReading(t, carIdx)
    && (forall initial :: Metered(t, carIdx, initial) ==> reading == Some(initial + Total(t, carIdx)))
    && (RegisterRows(t, carIdx) == [] ==> reading == None)
    && (RegisterRows(t, carIdx) == [] || DrivesOf(t, carIdx) == [] ==> date == today)
    && (RegisterRows(t, carIdx) != [] && DrivesOf(t, carIdx) != [] ==> IsLastDate(DrivesOf(t, carIdx), date))
  }

  ghost predicate IsLastDate(drives: seq<Drive>, date: Date) {
    (exists d :: d in drives && d.date == date) && forall d :: d in drives ==> OnOrBefore(d.date, date)
  }

  lemma LatestDriveDate(drives: seq<Drive>)
    ensures Latest(Map(drives, DriveDate)).None? <==> drives == []
    ensures drives != [] ==> IsLastDate(drives, Latest(Map(drives, DriveDate)).value)
  {
    if drives != [] {
      MapMembers(drives, DriveDate, Latest(Map(drives, DriveDate)).value);
      forall d | d in drives ensures d.date in Map(drives, DriveDate) {
        MapMembers(drives, DriveDate, d.date);
      }
    }
  }

  lemma DistMeans(t: Books, carIdx: int, today: Date)
    ensures IsDist(t, carIdx, today, CurrentReading(t, carIdx), LastDriven(t, carIdx).GetOr(today))
  {
    forall initial | Metered(t, carIdx, initial) ensures CurrentReading(t, carIdx) == Some(initial + Total(t, carIdx)) {
      CurrentIsTotal(t, carIdx, initial);
    }
    LatestDriveDate(DrivesOf(t, carIdx));
  }

  // ----- totals as plain sums -----

  lemma {:induction false} SqlSumMapped<A(!new), B(!new)>(s: seq<A>, f: A -> B, v: A -> Option<int>,
      w: B -> Option<int>)
    requires forall x :: x in s ==> v(x) == w(f(x))
    ensures SqlSum(Map(s, f), w) == SqlSum(s, v)
  {
    if s == [] {
    } else {
      SqlSumMapped(s[1..], f, v, w);
      assert Map(s, f)[1..] == Map(s[1..], f);
    }
  }

  lemma {:induction false} SqlSumNull<T(!new)>(s: seq<T>, w: T -> Option<int>)
    ensures SqlSum(s, w).None? <==> forall x :: x in s ==> w(x).None?
  {
    if s == [] {
    } else {
      SqlSumNull(s[1..], w);
      assert forall x :: x in s <==> x == s[0] || x in s[1..];
    }
  }

  function Total(t: Books, carIdx: int): int {
    Add(DrivesOf(t, carIdx), Driven)
  }

  function TotalUpTo(t: Books, carIdx: int, date: Date): int {
    Add(Filter(DrivesOf(t, carIdx), UpTo(date)), Driven)
  }

  /** The total up to a day is the sum of the shares of all drives. */
  lemma TotalUpToShares(t: Books, carIdx: int, date: Date)
    ensures TotalUpTo(t, carIdx, date) == Add(t.drives, DriveShare(carIdx, Until(date)))
    ensures Total(t, carIdx) == Add(t.drives, DriveShare(carIdx, Ever()))
  {
    DriveSums(t, carIdx, UpTo(date), Until(date));
    AddFiltered(t.drives, Equals(DriveCar, Some(carIdx)), Driven, DriveShare(carIdx, Ever()));
  }

  lemma DrivenSum(drives: seq<Drive>)
    ensures SqlSum(drives, Distance).GetOr(0) == Add(drives, Driven)
  {
    SqlSumOrZero(drives, Distance);
    AddAgree(drives, d => Distance(d).GetOr(0), Driven);
  }

  lemma FlatMapOne<A, B>(s: seq<A>, f: A -> seq<B>)
    requires |s| == 1
    ensures FlatMap(s, f) == f(s[0])
  {
    assert FlatMap(s[1..], f) == [];
  }

  lemma CurrentIsTotal(t: Books, carIdx: int, initial: int)
    requires Metered(t, carIdx, initial)
    ensures CurrentReading(t, carIdx) == Some(initial + Total(t, carIdx))
  {
    var drives, r := DrivesOf(t, carIdx), RegisterRows(t, carIdx)[0];
    FlatMapOne(RegisterRows(t, carIdx), WithDrives(drives));
    var rows := ReadingRows(t, carIdx);
    assert rows == WithDrives(drives)(r);
    if drives == [] {
      assert rows == [Reading(r, None)];
      assert SqlSum(rows, ReadingDistance) == None;
    } else {
      assert rows == JustDrives(drives)(r);
      SqlSumMapped(drives, AsReading(r), Distance, ReadingDistance);
    }
    DrivenSum(drives);
    assert rows != [] && rows[0].refer == r;
  }

  lemma RunningIsTotal(t: Books, carIdx: int, initial: int, date: Date, d: Drive)
    requires Metered(t, carIdx, initial)
    requires d in DrivesOf(t, carIdx) && OnOrBefore(d.date, date) && d.distance.Some?
    ensures RunningTotal(t, carIdx, date) == Some(initial + TotalUpTo(t, carIdx, date))
  {
    var drives, r := Filter(DrivesOf(t, carIdx), UpTo(date)), RegisterRows(t, carIdx)[0];
    FlatMapOne(RegisterRows(t, carIdx), JustDrives(drives));
    SqlSumMapped(drives, AsReading(r), Distance, ReadingDistance);
    SqlSumNull(drives, Distance);
    DrivenSum(drives);
  }

  // ----- the round trip -----

  datatype Entry = Entry(date: Date, reading: int, memo: string)

  function AddEntry(t: Books, carIdx: int, e: Entry): Books {
    AddDist(t, carIdx, e.date, e.reading, e.memo)
  }

  function AddAll(t: Books, carIdx: int, entries: seq<Entry>): Books
    decreases entries
  {
    if entries == [] then t
    else AddAll(AddEntry(t, carIdx, entries[0]), carIdx, entries[1..])
  }

  lemma AppendedDrive(drives: seq<Drive>, d: Drive)
    ensures Lookup(drives + [d], DriveCar, Some(d.carIdx)) == Lookup(drives, DriveCar, Some(d.carIdx)) + [d]
  {
    FilterConcat(drives, [d], Equals(DriveCar, Some(d.carIdx)));
  }

  /** What one entry changes. */
  lemma AddDistEffect(t: Books, carIdx: int, initial: int, e: Entry) returns (d: Drive)
    requires Metered(t, carIdx, initial)
    ensures Metered(AddEntry(t, carIdx, e), carIdx, initial)
    ensures CurrentReading(AddEntry(t, carIdx, e), carIdx) == Some(e.reading)
    ensures initial + Total(AddEntry(t, carIdx, e), carIdx) == e.reading
    ensures AddEntry(t, carIdx, e).drives == t.drives + [d]
    ensures DrivesOf(AddEntry(t, carIdx, e), carIdx) == DrivesOf(t, carIdx) + [d]
    ensures d.date == e.date && d.memo == e.memo && d.distance.Some?
  {
    d := NewDrive(t, carIdx, e.date, e.reading, e.memo);
    AppendedDrive(t.drives, d);
    CurrentIsTotal(t, carIdx, initial);
    CurrentIsTotal(AddEntry(t, carIdx, e), carIdx, initial);
    AddConcat(DrivesOf(t, carIdx), [d], Driven);
  }

  /** Whatever the dates, the current reading is the last one entered. */
  lemma {:induction false} CurrentIsLastEntered(t: Books, carIdx: int, initial: int, entries: seq<Entry>)
    requires Metered(t, carIdx, initial)
    ensures Metered(AddAll(t, carIdx, entries), carIdx, initial)
    ensures entries != [] ==> CurrentReading(AddAll(t, carIdx, entries), carIdx) == Some(entries[|entries|-1].reading)
    decreases entries
  {
    if entries == [] {
    } else {
      var d := AddDistEffect(t, carIdx, initial, entries[0]);
      CurrentIsLastEntered(AddEntry(t, carIdx, entries[0]), carIdx, initial, entries[1..]);
    }
  }

  lemma {:induction false} AddAllSplit(t: Books, carIdx: int, entries: seq<Entry>, k: nat)
    requires k <= |entries|
    ensures AddAll(t, carIdx, entries) == AddAll(AddAll(t, carIdx, entries[..k]), carIdx, entries[k..])
    decreases entries
  {
    if k == 0 {
    } else {
      var t' := AddEntry(t, carIdx, entries[0]);
      AddAllSplit(t', carIdx, entries[1..], k - 1);
      assert entries[..k][1..] == entries[1..][..k-1] && entries[..k][0] == entries[0];
      assert entries[1..][k-1..] == entries[k..];
    }
  }

  /** All the car's drives are dated on or before the given date. */
  ghost predicate AllBy(t: Books, carIdx: int, date: Date) {
    forall d :: d in DrivesOf(t, carIdx) ==> OnOrBefore(d.date, date)
  }

  lemma {:induction false} AddAllBy(t: Books, carIdx: int, initial: int, entries: seq<Entry>, date: Date)
    requires Metered(t, carIdx, initial) && AllBy(t, carIdx, date)
    requires forall e :: e in entries ==> OnOrBefore(e.date, date)
    ensures AllBy(AddAll(t, carIdx, entries), carIdx, date)
    decreases entries
  {
    if entries == [] {
    } else {
      var d := AddDistEffect(t, carIdx, initial, entries[0]);
      AddAllBy(AddEntry(t, carIdx, entries[0]), carIdx, initial, entries[1..], date);
    }
  }

  /** Entries dated after a day do not change the total up to that day. */
  lemma {:induction false} LaterEntries(t: Books, carIdx: int, initial: int, entries: seq<Entry>, date: Date)
    requires Metered(t, carIdx, initial)
    requires forall e :: e in entries ==> Precedes(date, e.date)
    ensures Filter(DrivesOf(AddAll(t, carIdx, entries), carIdx), UpTo(date)) == Filter(DrivesOf(t, carIdx), UpTo(date))
    decreases entries
  {
    if entries == [] {
    } else {
      var t' := AddEntry(t, carIdx, entries[0]);
      var d := AddDistEffect(t, carIdx, initial, entries[0]);
      FilterConcat(DrivesOf(t, carIdx), [d], UpTo(date));
      assert entries[0] in entries;
      LaterEntries(t', carIdx, initial, entries[1..], date);
    }
  }

  /** Once a day's drives are in, later entries leave the total up to that day alone. */
  lemma DayTotal(t: Books, carIdx: int, initial: int, later: seq<Entry>, date: Date)
    requires Metered(t, carIdx, initial) && AllBy(t, carIdx, date)
    requires forall e :: e in later ==> Precedes(date, e.date)
    ensures Filter(DrivesOf(AddAll(t, carIdx, later), carIdx), UpTo(date)) == DrivesOf(t, carIdx)
  {
    LaterEntries(t, carIdx, initial, later, date);
    FilterAll(DrivesOf(t, carIdx), UpTo(date));
  }

  /** The drive is a row of the entry, and the total of its day is the reading entered. */
  ghost predicate ComesBack(t: Books, carIdx: int, initial: int, e: Entry, d: Drive) {
    && d in DrivesOf(t, carIdx) && d.date == e.date && d.memo == e.memo && d.distance.Some?
    && initial + TotalUpTo(t, carIdx, d.date) == e.reading
  }

  /** Entries are appended after the drives already there. */
  lemma {:induction false} AddAllAppends(t: Books, carIdx: int, entries: seq<Entry>)
    ensures |AddAll(t, carIdx, entries).drives| == |t.drives| + |entries|
    ensures AddAll(t, carIdx, entries).drives[..|t.drives|] == t.drives
    decreases entries
  {
    if entries == [] {
    } else {
      var t' := AddEntry(t, carIdx, entries[0]);
      AddAllAppends(t', carIdx, entries[1..]);
      assert t'.drives[..|t.drives|] == t.drives;
    }
  }

  /** An entry not dated before the car's drives is what its day's total shows. */
  lemma EntryComesBack(t: Books, carIdx: int, initial: int, e: Entry, later: seq<Entry>) returns (d: Drive)
    requires Metered(t, carIdx, initial) && AllBy(t, carIdx, e.date)
    requires forall x :: x in later ==> Precedes(e.date, x.date)
    ensures ComesBack(AddAll(AddEntry(t, carIdx, e), carIdx, later), carIdx, initial, e, d)
    ensures AddEntry(t, carIdx, e).drives == t.drives + [d]
  {
    d := AddDistEffect(t, carIdx, initial, e);
    DayTotal(AddEntry(t, carIdx, e), carIdx, initial, later, e.date);
    assert d in Filter(DrivesOf(AddAll(AddEntry(t, carIdx, e), carIdx, later), carIdx), UpTo(e.date));
  }

  /** Every list of the drive's month has the drive with its day's total. */
  lemma ListedWithTotal(t: Books, carIdx: int, d: Drive, arr: seq<(Drive, Option<int>)>)
    requires d in DrivesOf(t, carIdx) && IsDriveList(t, carIdx, d.date.year, d.date.month, arr)
    ensures (d, RunningTotal(t, carIdx, d.date)) in arr
  {
    assert d in multiset(MonthDrives(t, carIdx, d.date.year, d.date.month));
    assert d in Map(arr, RowDrive);
    var i :| 0 <= i < |arr| && Map(arr, RowDrive)[i] == d;
    assert arr[i] == (d, RunningTotal(t, carIdx, d.date));
  }

  ghost predicate DatesNeverGoBack(entries: seq<Entry>) {
    forall j, k :: 0 <= j < k < |entries| ==> OnOrBefore(entries[j].date, entries[k].date)
  }

  /** Entry i makes row i after the drives already there. */
  lemma AddAllAround(t: Books, carIdx: int, entries: seq<Entry>, i: nat)
    requires i < |entries|
    ensures |AddAll(t, carIdx, entries).drives| == |t.drives| + |entries|
    ensures var before := AddAll(t, carIdx, entries[..i]);
            var after := AddEntry(before, carIdx, entries[i]);
            && AddAll(t, carIdx, entries) == AddAll(after, carIdx, entries[i+1..])
            && |after.drives| == |t.drives| + i + 1
            && AddAll(t, carIdx, entries).drives[|t.drives| + i] == after.drives[|t.drives| + i]
  {
    AddAllSplit(t, carIdx, entries, i);
    AddAllAppends(t, carIdx, entries[..i]);
    assert entries[i..][0] == entries[i] && entries[i..][1..] == entries[i+1..];
    var after := AddEntry(AddAll(t, carIdx, entries[..i]), carIdx, entries[i]);
    AddAllAppends(after, carIdx, entries[i+1..]);
    var all := AddAll(after, carIdx, entries[i+1..]).drives;
    assert all[|t.drives| + i] == all[..|after.drives|][|t.drives| + i];
  }

  /** The reading entered comes back on the row it made: after entries at dates that never go
      back, begun after the car's other drives, the total shown for a day is the last reading
      entered for that day, hence each row's own reading when the dates increase strictly. */
  lemma RoundTrip(t: Books, carIdx: int, initial: int, entries: seq<Entry>, i: nat) returns (d: Drive)
    requires Metered(t, carIdx, initial)
    requires i < |entries| && AllBy(t, carIdx, entries[0].date) && DatesNeverGoBack(entries)
    requires i + 1 < |entries| ==> entries[i].date != entries[i+1].date
    ensures |AddAll(t, carIdx, entries).drives| == |t.drives| + |entries|
    ensures d == AddAll(t, carIdx, entries).drives[|t.drives| + i]
    ensures d.carIdx == carIdx && d.date == entries[i].date && d.memo == entries[i].memo
    ensures forall arr :: IsDriveList(AddAll(t, carIdx, entries), carIdx, d.date.year, d.date.month, arr) ==>
              (d, Some(entries[i].reading)) in arr
  {
    EarlierDates(entries, i);
    forall e | e in entries[i+1..] ensures Precedes(entries[i].date, e.date) {
      LaterDates(entries, i, e);
    }
    AllByUntil(t, carIdx, initial, entries, i);
    AddAllAround(t, carIdx, entries, i);
    d := EntryComesBack(AddAll(t, carIdx, entries[..i]), carIdx, initial, entries[i], entries[i+1..]);
    CurrentIsLastEntered(t, carIdx, initial, entries);
    ListedBack(AddAll(t, carIdx, entries), carIdx, initial, entries[i], d);
  }

  lemma ListedBack(t: Books, carIdx: int, initial: int, e: Entry, d: Drive)
    requires Metered(t, carIdx, initial) && ComesBack(t, carIdx, initial, e, d)
    ensures d.carIdx == carIdx && d.date == e.date && d.memo == e.memo
    ensures forall arr :: IsDriveList(t, carIdx, d.date.year, d.date.month, arr) ==> (d, Some(e.reading)) in arr
  {
    RunningIsTotal(t, carIdx, initial, d.date, d);
    forall arr | IsDriveList(t, carIdx, d.date.year, d.date.month, arr) ensures (d, Some(e.reading)) in arr {
      ListedWithTotal(t, carIdx, d, arr);
    }
  }

  lemma AllByUntil(t: Books, carIdx: int, initial: int, entries: seq<Entry>, i: nat)
    requires Metered(t, carIdx, initial)
    requires i < |entries| && AllBy(t, carIdx, entries[0].date) && OnOrBefore(entries[0].date, entries[i].date)
    requires forall e :: e in entries[..i] ==> OnOrBefore(e.date, entries[i].date)
    ensures Metered(AddAll(t, carIdx, entries[..i]), carIdx, initial)
    ensures AllBy(AddAll(t, carIdx, entries[..i]), carIdx, entries[i].date)
  {
    CurrentIsLastEntered(t, carIdx, initial, entries[..i]);
    AddAllBy(t, carIdx, initial, entries[..i], entries[i].date);
  }

  lemma EarlierDates(entries: seq<Entry>, i: nat)
    requires i < |entries| && DatesNeverGoBack(entries)
    ensures OnOrBefore(entries[0].date, entries[i].date)
    ensures forall e :: e in entries[..i] ==> OnOrBefore(e.date, entries[i].date)
  {
  }

  lemma LaterDates(entries: seq<Entry>, i: nat, e: Entry)
    requires i < |entries| && DatesNeverGoBack(entries) && e in entries[i+1..]
    requires i + 1 < |entries| ==> entries[i].date != entries[i+1].date
    ensures Precedes(entries[i].date, e.date)
  {
    var j :| i + 1 <= j < |entries| && entries[j] == e;
    assert OnOrBefore(entries[i].date, entries[i+1].date);
    assert j > i + 1 ==> OnOrBefore(entries[i+1].date, entries[j].date);
  }

  lemma AppendedUpTo(drives: seq<Drive>, d: Drive, date: Date)
    requires OnOrBefore(d.date, date)
    ensures Add(Filter(drives + [d], UpTo(date)), Driven) ==
            Add(drives + [d], Driven) - Add(Filter(drives, Not(UpTo(date))), Driven)
  {
    AddSplit(drives + [d], UpTo(date), Driven);
    FilterConcat(drives, [d], Not(UpTo(date)));
    assert Filter(drives, Not(UpTo(date))) + [] == Filter(drives, Not(UpTo(date)));
  }

  /** What the day of an entry adds up to, the distances stored after it left out. */
  lemma TotalOfEntryDay(t: Books, carIdx: int, initial: int, e: Entry) returns (d: Drive)
    requires Metered(t, carIdx, initial)
    ensures Metered(AddEntry(t, carIdx, e), carIdx, initial)
    ensures d in DrivesOf(AddEntry(t, carIdx, e), carIdx) && d.date == e.date && d.distance.Some?
    ensures initial + TotalUpTo(AddEntry(t, carIdx, e), carIdx, e.date) ==
            e.reading - Add(Filter(DrivesOf(t, carIdx), Not(UpTo(e.date))), Driven)
  {
    d := AddDistEffect(t, carIdx, initial, e);
    AppendedUpTo(DrivesOf(t, carIdx), d, e.date);
  }

  /** A back-dated entry comes back as its day's total exactly when the distances stored after
      its date add up to nothing. */
  lemma BackdatedEntry(t: Books, carIdx: int, initial: int, e: Entry)
    requires Metered(t, carIdx, initial)
    ensures RunningTotal(AddEntry(t, carIdx, e), carIdx, e.date) == Some(e.reading) <==>
            Add(Filter(DrivesOf(t, carIdx), Not(UpTo(e.date))), Driven) == 0
  {
    var d := TotalOfEntryDay(t, carIdx, initial, e);
    RunningIsTotal(AddEntry(t, carIdx, e), carIdx, initial, e.date, d);
  }

  // ----- edits and deletions -----

  /** What a drive adds to the car's odometer. */
  function Share(carIdx: int): Drive -> int {
    (d: Drive) => if d.carIdx == carIdx then Driven(d) else 0
  }

  lemma TotalShares(t: Books, carIdx: int)
    ensures Total(t, carIdx) == Add(t.drives, Share(carIdx))
  {
    AddFiltered(t.drives, Equals(DriveCar, Some(carIdx)), Driven, Share(carIdx));
  }

  /** Changing one row of a table changes its sum by that row's change. */
  lemma {:induction false} AddChangedRow<T(!new), K(!new)>(s: seq<T>, key: T -> K, x: T, v: T -> int, w: T -> int)
    requires Unique(s, key) && x in s
    requires forall y :: y in s && key(y) != key(x) ==> v(y) == w(y)
    ensures Add(s, v) == Add(s, w) + v(x) - w(x)
  {
    if s[0] == x {
      forall y | y in s[1..] ensures v(y) == w(y) {
        var i :| 0 <= i < |s[1..]| && s[1..][i] == y;
        assert key(s[0]) != key(s[i+1]);
      }
      AddAgree(s[1..], v, w);
    } else {
      var i :| 0 <= i < |s| && s[i] == x;
      assert key(s[0]) != key(s[i]) && s[1..][i-1] == x;
      AddChangedRow(s[1..], key, x, v, w);
    }
  }

  /** The drive's share after its distance is set. */
  function ShareAfter(carIdx: int, driveIdx: int, distance: int): Drive -> int {
    (d: Drive) => if d.carIdx != carIdx then 0 else if d.driveIdx == driveIdx then distance else Driven(d)
  }

  lemma EditTotal(t: Books, d: Drive, date: Date, distance: int, memo: string, carIdx: int)
    requires Unique(t.drives, DriveKey) && d in t.drives
    ensures Total(UpdateDrive(t, d.driveIdx, date, distance, memo), carIdx) ==
            Total(t, carIdx) + if d.carIdx == carIdx then distance - Driven(d) else 0
  {
    var v := ShareAfter(carIdx, d.driveIdx, distance);
    TotalShares(t, carIdx);
    TotalShares(UpdateDrive(t, d.driveIdx, date, distance, memo), carIdx);
    AddMapped(t.drives, Edited(d.driveIdx, date, distance, memo), v, Share(carIdx));
    AddChangedRow(t.drives, DriveKey, d, v, Share(carIdx));
  }

  lemma DeleteTotal(t: Books, d: Drive, carIdx: int)
    requires Unique(t.drives, DriveKey) && d in t.drives
    ensures Total(DelDrive(t, d.driveIdx), carIdx) == Total(t, carIdx) - if d.carIdx == carIdx then Driven(d) else 0
  {
    var v := ShareAfter(carIdx, d.driveIdx, 0);
    TotalShares(t, carIdx);
    TotalShares(DelDrive(t, d.driveIdx), carIdx);
    AddFiltered(t.drives, Not(Having(DriveKey, d.driveIdx)), Share(carIdx), v);
    AddChangedRow(t.drives, DriveKey, d, v, Share(carIdx));
  }

  lemma ReadingShifts(t: Books, t': Books, carIdx: int, initial: int, change: int)
    requires Metered(t, carIdx, initial) && Metered(t', carIdx, initial)
    requires Total(t', carIdx) == Total(t, carIdx) + change
    ensures CurrentReading(t', carIdx) == Some(CurrentReading(t, carIdx).GetOr(0) + change)
  {
    CurrentIsTotal(t, carIdx, initial);
    CurrentIsTotal(t', carIdx, initial);
  }

  /** An edit shifts the current reading of the drive's car by the change in its distance,
      and no other car's; the date does not matter. */
  lemma EditShifts(t: Books, d: Drive, date: Date, distance: int, memo: string, carIdx: int, initial: int)
    requires Unique(t.drives, DriveKey) && d in t.drives && Metered(t, carIdx, initial)
    ensures CurrentReading(UpdateDrive(t, d.driveIdx, date, distance, memo), carIdx) ==
            Some(CurrentReading(t, carIdx).GetOr(0) + if d.carIdx == carIdx then distance - Driven(d) else 0)
  {
    EditTotal(t, d, date, distance, memo, carIdx);
    ReadingShifts(t, UpdateDrive(t, d.driveIdx, date, distance, memo), carIdx, initial,
                  if d.carIdx == carIdx then distance - Driven(d) else 0);
  }

  /** A deletion takes back exactly the stored distance. */
  lemma DeleteShifts(t: Books, d: Drive, carIdx: int, initial: int)
    requires Unique(t.drives, DriveKey) && d in t.drives && Metered(t, carIdx, initial)
    ensures CurrentReading(DelDrive(t, d.driveIdx), carIdx) ==
            Some(CurrentReading(t, carIdx).GetOr(0) - if d.carIdx == carIdx then Driven(d) else 0)
  {
    DeleteTotal(t, d, carIdx);
    ReadingShifts(t, DelDrive(t, d.driveIdx), carIdx, initial, if d.carIdx == carIdx then -Driven(d) else 0);
  }
}
