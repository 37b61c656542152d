/** Counts per value of a column (shCount.php, SearchName.php) against the plain counts
    (setCount.php, findCar.php). */
module Facets {
  import opened Relational
  import opened Mysqli
  import opened Market
  import opened Search

  datatype Bucket = Bucket(name: Option<string>, cnt: nat)

  function BucketName(b: Bucket): Option<string> { b.name }
  function BucketCount(b: Bucket): int { b.cnt }

  /** `count(cell)` within the group `name`: NULLs are not counted. */
  function CountOf<T(!new)>(rows: seq<T>, cell: T -> Option<string>, name: Option<string>): nat {
    if name.None? then 0 else |Filter(rows, Having(cell, name))|
  }

  /** `select cell as name, count(cell) as cnt ... group by cell`, in any order. */
  ghost predicate IsGrouped<T(!new)>(rows: seq<T>, cell: T -> Option<string>, out: seq<Bucket>) {
    && NoDuplicates(Map(out, BucketName))
    && (forall n :: n in Map(out, BucketName) <==> n in Map(rows, cell))
    && (forall b :: b in out ==> b.cnt == CountOf(rows, cell, b.name))
  }

  function Grouped<T(!new)>(rows: seq<T>, cell: T -> Option<string>): seq<Bucket> {
    Map(Distinct(Map(rows, cell)), n => Bucket(n, CountOf(rows, cell, n)))
  }

  lemma GroupedIsGrouped<T(!new)>(rows: seq<T>, cell: T -> Option<string>)
    ensures IsGrouped(rows, cell, Grouped(rows, cell))
  {
    var names := Distinct(Map(rows, cell));
    assert Map(Grouped(rows, cell), BucketName) == names;
  }

  function NotNull<T>(cell: T -> Option<string>): T -> bool {
    x => cell(x).Some?
  }

  function One<T>(): T -> int {
    x => 1
  }

  lemma {:induction false} AddOne<T(!new)>(s: seq<T>)
    ensures Add(s, One()) == |s|
  {
    if s == [] {
    } else {
      AddOne(s[1..]);
    }
  }

  /** The buckets partition the rows whose cell is not null. */
  lemma BucketsPartition<T(!new)>(rows: seq<T>, cell: T -> Option<string>, out: seq<Bucket>)
    requires IsGrouped(rows, cell, out)
    ensures Add(out, BucketCount) == |Filter(rows, NotNull(cell))|
  {
    var known := Filter(rows, NotNull(cell));
    var names := Map(out, BucketName);
    forall x | x in known ensures cell(x) in names {
      MapMembers(rows, cell, cell(x));
    }
    AddGroups(known, cell, names, One());
    AddOne(known);
    forall b | b in out ensures BucketCount(b) == GroupSum(known, cell, One<T>())(BucketName(b)) {
      FilterFilter(rows, NotNull(cell), Having(cell, b.name));
      if b.name.Some? {
        FilterAgree(rows, And(NotNull(cell), Having(cell, b.name)), Having(cell, b.name));
      } else {
        EmptyOrMember(Filter(known, Having(cell, b.name)));
      }
      AddOne(Filter(known, Having(cell, b.name)));
    }
    AddMapped(out, BucketName, BucketCount, GroupSum(known, cell, One<T>()));
  }

  // ----- shCount.php -----

  method ShCount(t: Tables, f: Form, column: Column) returns (arr: seq<Bucket>)
    ensures if Parses(f) then IsGrouped(Matches(t, f), Cell(column), arr) else arr == []
  {
    var cond := BuildCond(f);
    if AllLiteral(cond) {
      FilterAgree(OpenRows(t), Where(cond), Admits(f));
      GroupedIsGrouped(Matches(t, f), Cell(column));
      var result := new ResultSet(Grouped(Filter(OpenRows(t), Where(cond)), Cell(column)));
      arr := FetchAll(result);
    } else {
      arr := [];
    }
  }

  /** The facet counts add up to the plain count exactly when no counted row is null there. */
  lemma FacetsSumToCount(t: Tables, f: Form, column: Column, out: seq<Bucket>)
    requires IsGrouped(Matches(t, f), Cell(column), out)
    ensures Add(out, BucketCount) <= Count(t, f)
    ensures Add(out, BucketCount) == Count(t, f) <==>
            forall row :: row in Matches(t, f) ==> Cell(column)(row).Some?
  {
    BucketsPartition(Matches(t, f), Cell(column), out);
    FilterSubset(Matches(t, f), NotNull(Cell(column)), Always());
    FilterAll(Matches(t, f), Always());
  }

  /** The form's field that filters on the column. */
  function Chosen(f: Form, column: Column): Param {
    match column
    case Brand => f.brand
    case Year => f.model
    case FuelName => f.grade
    case Country => f.country
    case Own => f.own
  }

  function Choose(f: Form, column: Column, p: Param): Form {
    match column
    case Brand => f.(brand := p)
    case Year => f.(model := p)
    case FuelName => f.(grade := p)
    case Country => f.(country := p)
    case Own => f.(own := p)
  }

  /** The scripts act on the value when it is put into the column's field. */
  predicate Selects(column: Column, p: Param) {
    if column == Own then p == Some("y") || p == Some("n") else !Empty(p)
  }

  lemma ChoosingNarrows(f: Form, column: Column, p: Param, row: Row)
    requires Selects(column, p) && !Selects(column, Chosen(f, column))
    ensures Admits(Choose(f, column, p))(row) <==> Admits(f)(row) && Cell(column)(row) == p
  {
  }

  lemma ChosenHolds(f: Form, column: Column, row: Row)
    requires Selects(column, Chosen(f, column)) && Admits(f)(row)
    ensures Cell(column)(row) == Chosen(f, column)
  {
  }

  /** Picking a listed value from a facet gives as many cars as its bucket announced. */
  lemma BucketIsFilteredCount(t: Tables, f: Form, column: Column, out: seq<Bucket>, b: Bucket)
    requires IsGrouped(Matches(t, f), Cell(column), out)
    requires b in out && Selects(column, b.name)
    ensures b.cnt == Count(t, Choose(f, column, b.name))
  {
    var picked := Choose(f, column, b.name);
    if Selects(column, Chosen(f, column)) {
      MapMembers(out, BucketName, b.name);
      MapMembers(Matches(t, f), Cell(column), b.name);
      var row :| row in Matches(t, f) && Cell(column)(row) == b.name;
      assert Admits(f)(row);
      ChosenHolds(f, column, row);
      forall other | other in Matches(t, f) ensures Having(Cell(column), b.name)(other) {
        assert Admits(f)(other);
        ChosenHolds(f, column, other);
      }
      FilterAll(Matches(t, f), Having(Cell(column), b.name));
      assert picked == f;
    } else {
      FilterFilter(OpenRows(t), Admits(f), Having(Cell(column), b.name));
      forall row ensures And(Admits(f), Having(Cell(column), b.name))(row) == Admits(picked)(row) {
        ChoosingNarrows(f, column, b.name, row);
      }
      FilterAgree(OpenRows(t), And(Admits(f), Having(Cell(column), b.name)), Admits(picked));
    }
  }

  /** A bucket whose value PHP takes for empty cannot be picked: choosing it leaves the
      count unfiltered, which is its own count only if it is the sole value. */
  lemma EmptyBucketIsNotAFilter(t: Tables, f: Form, column: Column, out: seq<Bucket>, b: Bucket)
    requires IsGrouped(Matches(t, f), Cell(column), out)
    requires b in out && b.name.Some? && !Selects(column, b.name) && !Selects(column, Chosen(f, column))
    ensures Count(t, Choose(f, column, b.name)) == Count(t, f)
    ensures b.cnt == Count(t, f) <==> forall other :: other in out ==> other == b
  {
    FilterAgree(OpenRows(t), Admits(Choose(f, column, b.name)), Admits(f));
    var rows := Matches(t, f);
    FilterSubset(rows, Having(Cell(column), b.name), Always());
    FilterAll(rows, Always());
    if forall row :: row in rows ==> Cell(column)(row) == b.name {
      forall other | other in out ensures other == b {
        MapMembers(out, BucketName, other.name);
        MapMembers(rows, Cell(column), other.name);
      }
    }
    if forall other :: other in out ==> other == b {
      forall row | row in rows ensures Cell(column)(row) == b.name {
        MapMembers(rows, Cell(column), Cell(column)(row));
        MapMembers(out, BucketName, Cell(column)(row));
      }
    }
  }

  // ----- SearchName.php and findCar.php -----

  function YearHas(text: string): Base -> bool {
    (b: Base) => Has(b.model.year, text)
  }

  function RowYearHas(text: string): Row -> bool {
    (row: Row) => Has(row.model.year, text)
  }

  function BaseYear(b: Base): Option<string> { b.model.year }

  method SearchName(t: Tables, name: string) returns (arr: seq<Bucket>)
    ensures IsGrouped(Filter(OpenBases(t), YearHas(name)), BaseYear, arr)
  {
    var rows := Filter(OpenBases(t), YearHas(name));
    GroupedIsGrouped(rows, BaseYear);
    var result := new ResultSet(Grouped(rows, BaseYear));
    arr := FetchAll(result);
  }

  /** The count findCar.php shows for a recognised name. */
  function FindCarCount(t: Tables, text: string): nat {
    |Filter(OpenRows(t), RowYearHas(text))|
  }

  lemma {:induction false} FilterMapped<A(!new), B(!new)>(s: seq<A>, f: A -> B, p: A -> bool, q: B -> bool)
    requires forall x :: x in s ==> p(x) == q(f(x))
    ensures |Filter(s, p)| == |Filter(Map(s, f), q)|
  {
    if s == [] {
    } else {
      FilterMapped(s[1..], f, p, q);
      assert Map(s, f)[1..] == Map(s[1..], f);
    }
  }

  /** findCar.php counts the matching rows of the other query whose fuel exists. */
  lemma FindCarCountsFuelled(t: Tables, text: string)
    requires KeysUnique(t)
    ensures FindCarCount(t, text) == |Filter(OpenBases(t), And(NonEmpty(WithFuel(t)), YearHas(text)))|
  {
    OpenRowsOncePerListing(t);
    FilterMapped(OpenRows(t), RowBase, RowYearHas(text), YearHas(text));
    FilterFilter(OpenBases(t), NonEmpty(WithFuel(t)), YearHas(text));
  }

  predicate FuelExists(t: Tables, b: Base) {
    exists u :: u in t.fuels && b.car.fuelIdx == Some(u.fuelIdx)
  }

  lemma HasFuel(t: Tables, b: Base)
    ensures NonEmpty(WithFuel(t))(b) <==> FuelExists(t, b)
  {
    EmptyOrMember(Lookup(t.fuels, FuelKey, b.car.fuelIdx));
  }

  lemma NamesSum(t: Tables, text: string, out: seq<Bucket>)
    requires IsGrouped(Filter(OpenBases(t), YearHas(text)), BaseYear, out)
    ensures Add(out, BucketCount) == |Filter(OpenBases(t), YearHas(text))|
  {
    BucketsPartition(Filter(OpenBases(t), YearHas(text)), BaseYear, out);
    FilterAll(Filter(OpenBases(t), YearHas(text)), NotNull(BaseYear));
  }

  /** The counts per model name add up to the count for the same text exactly when every
      matching car's fuel exists: only one of the two queries joins the fuel table. */
  lemma NamesSumToFindCar(t: Tables, text: string, out: seq<Bucket>)
    requires KeysUnique(t)
    requires IsGrouped(Filter(OpenBases(t), YearHas(text)), BaseYear, out)
    ensures Add(out, BucketCount) >= FindCarCount(t, text)
    ensures Add(out, BucketCount) == FindCarCount(t, text) <==>
            forall b :: b in OpenBases(t) && Has(b.model.year, text) ==> FuelExists(t, b)
  {
    NamesSum(t, text, out);
    FindCarCountsFuelled(t, text);
    var both := And(NonEmpty(WithFuel(t)), YearHas(text));
    FilterSubset(OpenBases(t), both, YearHas(text));
    forall b: Base ensures both(b) <==> FuelExists(t, b) && YearHas(text)(b) {
      HasFuel(t, b);
    }
  }

  // ----- examples -----

  lemma BucketFor<T(!new)>(rows: seq<T>, cell: T -> Option<string>, out: seq<Bucket>, x: T) returns (b: Bucket)
    requires IsGrouped(rows, cell, out) && x in rows
    ensures b in out && b.name == cell(x)
  {
    MapMembers(rows, cell, cell(x));
    MapMembers(out, BucketName, cell(x));
    b :| b in out && b.name == cell(x);
  }

  /** While cars of brand "0" and of another brand are on sale, the bucket of "0" cannot be
      picked. */
  lemma BrandZero(t: Tables, out: seq<Bucket>, row: Row, other: Row) returns (b: Bucket)
    requires IsGrouped(Matches(t, NO_FILTER), Cell(Brand), out)
    requires row in Matches(t, NO_FILTER) && other in Matches(t, NO_FILTER)
    requires Cell(Brand)(row) == Some("0") != Cell(Brand)(other)
    ensures b in out && b.name == Some("0") && b.cnt != Count(t, Choose(NO_FILTER, Brand, Some("0")))
  {
    b := BucketFor(Matches(t, NO_FILTER), Cell(Brand), out, row);
    var c := BucketFor(Matches(t, NO_FILTER), Cell(Brand), out, other);
    EmptyBucketIsNotAFilter(t, NO_FILTER, Brand, out, b);
  }

  /** One car without fuel: SearchName.php finds it and findCar.php does not. */
  lemma CarWithoutFuel(t: Tables, m: Listing, c: Car, k: Connection, o: Model, text: string, out: seq<Bucket>)
    requires t.listings == [m] && t.cars == [c] && t.connections == [k] && t.models == [o]
    requires t.fuels == [] && t.trades == []
    requires c.carIdx == m.carIdx && c.connectionIdx == Some(k.connectionIdx) && o.modelIdx == k.modelIdx
    requires Has(o.year, text) && IsGrouped(Filter(OpenBases(t), YearHas(text)), BaseYear, out)
    ensures Add(out, BucketCount) > FindCarCount(t, text)
  {
    var b := Base(m, c, k, o);
    assert m in t.listings && c in t.cars && k in t.connections && o in t.models;
    OpenBasesMembers(t, b);
    NamesSumToFindCar(t, text, out);
  }
}
