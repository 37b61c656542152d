/** The list, count and facet queries over open listings, and why they agree. */
module Search {
  import opened Relational
  import opened Mysqli
  import opened Market

  // ----- `$cond`, appended field by field -----

  datatype Column = Brand | Year | FuelName | Country | Own
  datatype Measure = Mileage | Price
  datatype Cond = Is(column: Column, text: string)
                | Like(text: string)
                | Between(measure: Measure, lo: string, hi: string)

  function Cell(column: Column): Row -> Option<string> {
    (row: Row) =>
      match column
      case Brand => row.model.brand
      case Year => row.model.year
      case FuelName => row.fuel.fuelName
      case Country => row.listing.country
      case Own => Some(row.listing.own)
  }

  function Amount(measure: Measure, row: Row): int {
    match measure
    case Mileage => row.car.mileage
    case Price => row.listing.price
  }

  predicate Literal(c: Cond) {
    c.Between? ==> Numeral(c.lo) && Numeral(c.hi)
  }

  predicate Holds(c: Cond, row: Row) {
    match c
    case Is(column, text) => Cell(column)(row) == Some(text)
    case Like(text) => Has(row.model.year, text)
    case Between(measure, lo, hi) => Value(lo) <= Amount(measure, row) <= Value(hi)
  }

  predicate AllHold(cond: seq<Cond>, row: Row) {
    forall i :: 0 <= i < |cond| ==> Holds(cond[i], row)
  }

  predicate AllLiteral(cond: seq<Cond>) {
    forall i :: 0 <= i < |cond| ==> Literal(cond[i])
  }

  function Where(cond: seq<Cond>): Row -> bool {
    (row: Row) => AllHold(cond, row)
  }

  /** The form's conditions have been turned into text: it parses when `parses`, and then
      selects what p does. */
  ghost predicate Means(cond: seq<Cond>, parses: bool, p: Row -> bool) {
    && (AllLiteral(cond) <==> parses)
    && (parses ==> forall row :: AllHold(cond, row) <==> p(row))
  }

  /** `if (on) $cond = $cond." and ..."` */
  method Append(cond: seq<Cond>, on: bool, c: Cond) returns (r: seq<Cond>)
    ensures forall row :: AllHold(r, row) <==> AllHold(cond, row) && (on ==> Holds(c, row))
    ensures AllLiteral(r) <==> AllLiteral(cond) && (on ==> Literal(c))
  {
    r := cond;
    if on {
      r := r + [c];
      assert forall i :: 0 <= i < |cond| ==> r[i] == cond[i];
      assert r[|cond|] == c;
    }
  }

  lemma FormMeans(f: Form, row: Row)
    requires Parses(f)
    ensures Admits(f)(row) <==>
            && (!Empty(f.brand) ==> Holds(Is(Brand, f.brand.GetOr("")), row))
            && (!Empty(f.model) ==> Holds(Is(Year, f.model.GetOr("")), row))
            && (!Empty(f.grade) ==> Holds(Is(FuelName, f.grade.GetOr("")), row))
            && (!Empty(f.country) ==> Holds(Is(Country, f.country.GetOr("")), row))
            && (!Empty(f.minMileage) ==> Holds(Between(Mileage, f.minMileage.GetOr(""), f.maxMileage.GetOr("")), row))
            && (!Empty(f.minPrice) ==> Holds(Between(Price, f.minPrice.GetOr(""), f.maxPrice.GetOr("")), row))
            && (f.own == Some("y") ==> Holds(Is(Own, "y"), row))
            && (f.own == Some("n") ==> Holds(Is(Own, "n"), row))
  {
  }

  /** The count and facet scripts' conditions. */
  method BuildCond(f: Form) returns (cond: seq<Cond>)
    ensures Means(cond, Parses(f), Admits(f))
  {
    cond := [];
    cond := Append(cond, !Empty(f.brand), Is(Brand, f.brand.GetOr("")));
    cond := Append(cond, !Empty(f.model), Is(Year, f.model.GetOr("")));
    cond := Append(cond, !Empty(f.grade), Is(FuelName, f.grade.GetOr("")));
    cond := Append(cond, !Empty(f.country), Is(Country, f.country.GetOr("")));
    cond := Append(cond, !Empty(f.minMileage), Between(Mileage, f.minMileage.GetOr(""), f.maxMileage.GetOr("")));
    cond := Append(cond, !Empty(f.minPrice), Between(Price, f.minPrice.GetOr(""), f.maxPrice.GetOr("")));
    cond := Append(cond, f.own == Some("y"), Is(Own, "y"));
    cond := Append(cond, f.own == Some("n"), Is(Own, "n"));
    forall row | Parses(f) ensures AllHold(cond, row) <==> Admits(f)(row) {
      FormMeans(f, row);
    }
  }

  /** The list script's conditions, which also look at `name`. */
  method BuildListCond(f: Form) returns (cond: seq<Cond>)
    ensures Means(cond, Parses(f), AdmitsNamed(f))
  {
    cond := [];
    cond := Append(cond, !Empty(f.brand), Is(Brand, f.brand.GetOr("")));
    cond := Append(cond, !Empty(f.name), Like(f.name.GetOr("")));
    cond := Append(cond, !Empty(f.model), Is(Year, f.model.GetOr("")));
    cond := Append(cond, !Empty(f.grade), Is(FuelName, f.grade.GetOr("")));
    cond := Append(cond, !Empty(f.country), Is(Country, f.country.GetOr("")));
    cond := Append(cond, !Empty(f.minMileage), Between(Mileage, f.minMileage.GetOr(""), f.maxMileage.GetOr("")));
    cond := Append(cond, !Empty(f.minPrice), Between(Price, f.minPrice.GetOr(""), f.maxPrice.GetOr("")));
    cond := Append(cond, f.own == Some("y"), Is(Own, "y"));
    cond := Append(cond, f.own == Some("n"), Is(Own, "n"));
    forall row | Parses(f) ensures AllHold(cond, row) <==> AdmitsNamed(f)(row) {
      FormMeans(f, row);
    }
  }

  function AdmitsNamed(f: Form): Row -> bool {
    (row: Row) => Admits(f)(row) && NameMatches(f, row)
  }

  // ----- the count -----

  function Matches(t: Tables, f: Form): seq<Row> {
    Filter(OpenRows(t), Admits(f))
  }

  function Count(t: Tables, f: Form): nat {
    |Matches(t, f)|
  }

  /** The field asks for x: PHP takes neither the empty text nor "0" for a request. */
  predicate Asks(p: Param, x: string) {
    p == Some(x) && x != "" && x != "0"
  }

  /** The value lies in the range asked for, if one is. */
  ghost predicate InRange(lo: Param, hi: Param, v: int) {
    forall x :: Asks(lo, x) ==> exists y :: hi == Some(y) && Value(x) <= v <= Value(y)
  }

  /** What a form that parses asks of a row: the texts given, the ranges given, and the own flag if
      it is "y" or "n". */
  lemma AdmitsMeans(f: Form, row: Row)
    requires Parses(f)
    ensures Admits(f)(row) <==>
            && (forall x :: Asks(f.brand, x) ==> row.model.brand == Some(x))
            && (forall x :: Asks(f.model, x) ==> row.model.year == Some(x))
            && (forall x :: Asks(f.grade, x) ==> row.fuel.fuelName == Some(x))
            && (forall x :: Asks(f.country, x) ==> row.listing.country == Some(x))
            && InRange(f.minMileage, f.maxMileage, row.car.mileage)
            && InRange(f.minPrice, f.maxPrice, row.listing.price)
            && (f.own == Some("y") ==> row.listing.own == "y")
            && (f.own == Some("n") ==> row.listing.own == "n")
  {
    WantsMeans(f.brand, row.model.brand);
    WantsMeans(f.model, row.model.year);
    WantsMeans(f.grade, row.fuel.fuelName);
    WantsMeans(f.country, row.listing.country);
    WithinMeans(f.minMileage, f.maxMileage, row.car.mileage);
    WithinMeans(f.minPrice, f.maxPrice, row.listing.price);
  }

  lemma WantsMeans(p: Param, column: Option<string>)
    ensures Wants(p, column) <==> forall x :: Asks(p, x) ==> column == Some(x)
  {
    if p.Some? && Asks(p, p.value) && forall x :: Asks(p, x) ==> column == Some(x) {
      assert column == Some(p.value);
    }
  }

  lemma WithinMeans(lo: Param, hi: Param, v: int)
    requires !Empty(lo) ==> Numeral(lo.value) && Numeral(hi.GetOr(""))
    ensures Within(lo, hi, v) <==> InRange(lo, hi, v)
  {
    if lo.Some? && Asks(lo, lo.value) && InRange(lo, hi, v) {
      assert exists y :: hi == Some(y) && Value(lo.value) <= v <= Value(y);
    }
  }

  /** A set range parses exactly when both its bounds are plain digits. */
  lemma ParsesMeans(f: Form)
    ensures Parses(f) <==>
            && (forall x :: Asks(f.minMileage, x) ==> Numeral(x) && f.maxMileage.Some? && Numeral(f.maxMileage.value))
            && (forall x :: Asks(f.minPrice, x) ==> Numeral(x) && f.maxPrice.Some? && Numeral(f.maxPrice.value))
  {
    assert f.minMileage.Some? ==> Asks(f.minMileage, f.minMileage.value) == !Empty(f.minMileage);
    assert f.minPrice.Some? ==> Asks(f.minPrice, f.minPrice.value) == !Empty(f.minPrice);
  }

  /** The listing is on sale, with its car, connection, model and fuel, and the form admits it. */
  ghost predicate Counted(t: Tables, f: Form, sellIdx: int) {
    exists row :: OnSale(t, row) && Admits(f)(row) && row.listing.sellIdx == sellIdx
  }

  /** The count is of the ids of such listings. */
  lemma CountMeans(t: Tables, f: Form) returns (ids: set<int>)
    requires KeysUnique(t)
    ensures |ids| == Count(t, f) && forall s :: s in ids <==> Counted(t, f, s)
  {
    OpenRowsOncePerListing(t);
    FilterUnique(OpenRows(t), Admits(f), RowSell);
    DistinctImages(Matches(t, f), RowSell);
    ids := Images(Matches(t, f), RowSell);
    forall row ensures row in Matches(t, f) <==> OnSale(t, row) && Admits(f)(row) {
      OpenRowsMembers(t, row);
    }
  }

  /** setCount.php: one row holding the count, or no row if the statement does not parse. */
  method SetCount(t: Tables, f: Form) returns (arr: seq<nat>)
    ensures arr == if Parses(f) then [Count(t, f)] else []
    ensures KeysUnique(t) && Parses(f) ==>
              exists ids: set<int> :: arr == [|ids|] && forall s :: s in ids <==> Counted(t, f, s)
  {
    if KeysUnique(t) {
      var ids := CountMeans(t, f);
    }
    var cond := BuildCond(f);
    if AllLiteral(cond) {
      FilterAgree(OpenRows(t), Where(cond), Admits(f));
      var result := new ResultSet([|Filter(OpenRows(t), Where(cond))|]);
      arr := FetchAll(result);
    } else {
      arr := [];
    }
  }

  // ----- the list -----

  /** A result row before grouping: the outer joins add a label and a bookmark. */
  datatype ListRow = ListRow(row: Row, grade: OptGrade, labelText: Option<string>, bookmark: Option<int>)

  function ListSell(r: ListRow): int { r.row.listing.sellIdx }

  function Labelled(t: Tables): Option<Additional> -> seq<Option<string>> {
    (a: Option<Additional>) =>
      OrNull(Map(Lookup(t.labels, LabelKey, if a.Some? then Some(a.value.labelIdx) else None), (l: Label) => l.text))
  }

  function LabelsOf(t: Tables, sellIdx: int): seq<Option<string>> {
    FlatMap(OrNull(Lookup(t.additional, AdditionalKey, Some(sellIdx))), Labelled(t))
  }

  function BookmarksOf(t: Tables, sellIdx: int, userIdx: int): seq<Option<int>> {
    OrNull(Map(Filter(t.bookmarks, (b: Bookmark) => b.sellIdx == sellIdx && b.userIdx == userIdx),
               (b: Bookmark) => b.userIdx))
  }

  function WithBookmark(t: Tables, userIdx: int, row: Row, g: OptGrade): Option<string> -> seq<ListRow> {
    (l: Option<string>) =>
      Map(BookmarksOf(t, row.listing.sellIdx, userIdx), (b: Option<int>) => ListRow(row, g, l, b))
  }

  function WithLabel(t: Tables, userIdx: int, row: Row): OptGrade -> seq<ListRow> {
    (g: OptGrade) => FlatMap(LabelsOf(t, row.listing.sellIdx), WithBookmark(t, userIdx, row, g))
  }

  function Grades(t: Tables, row: Row): seq<OptGrade> {
    Lookup(t.optGrades, OptGradeKey, Some(row.connection.optGradeIdx))
  }

  function Decorated(t: Tables, userIdx: int): Row -> seq<ListRow> {
    (row: Row) => FlatMap(Grades(t, row), WithLabel(t, userIdx, row))
  }

  function ListRows(t: Tables, f: Form, userIdx: int): seq<ListRow> {
    FlatMap(Filter(OpenRows(t), AdmitsNamed(f)), Decorated(t, userIdx))
  }

  /** What the list is ordered by. */
  datatype Stamp = Stamp(date: int, sellIdx: int)

  function StampOf(m: Listing): Stamp { Stamp(m.date, m.sellIdx) }
  function ListStamp(r: ListRow): Stamp { StampOf(r.row.listing) }

  /** `order by date desc, sell_idx desc`, strictly. */
  predicate Newer(a: Stamp, b: Stamp) {
    a.date > b.date || (a.date == b.date && a.sellIdx > b.sellIdx)
  }

  predicate ListLe(a: ListRow, b: ListRow) {
    !Newer(ListStamp(b), ListStamp(a))
  }

  function Sells(rows: seq<ListRow>): seq<int> {
    Map(rows, ListSell)
  }

  /** `group by sell_idx` keeps one row, whichever, of each listing; then the order. */
  ghost predicate IsList(t: Tables, f: Form, userIdx: int, out: seq<ListRow>) {
    && (forall r :: r in out ==> r in ListRows(t, f, userIdx))
    && (forall s :: s in Sells(out) <==> s in Sells(ListRows(t, f, userIdx)))
    && NoDuplicates(Sells(out))
    && Sorted(out, ListLe)
  }

  function FirstOfEach(rows: seq<ListRow>): (out: seq<ListRow>)
    ensures forall r :: r in out ==> r in rows
    ensures forall s :: s in Sells(out) <==> s in Sells(rows)
    ensures NoDuplicates(Sells(out))
  {
    if rows == [] then []
    else
      var last, before := rows[|rows|-1], rows[..|rows|-1];
      var rest := FirstOfEach(before);
      assert Sells(rows) == Sells(before) + [ListSell(last)];
      assert Sells(rest + [last]) == Sells(rest) + [ListSell(last)];
      if ListSell(last) in Sells(rest) then rest else rest + [last]
  }

  lemma ListLeTotal()
    ensures TotalPreorder(ListLe)
  {
  }

  lemma SameSells(a: seq<ListRow>, b: seq<ListRow>)
    requires multiset(a) == multiset(b)
    ensures forall s :: s in Sells(a) <==> s in Sells(b)
    ensures NoDuplicates(Sells(a)) <==> NoDuplicates(Sells(b))
  {
    MapPermutes(a, b, ListSell);
    NoDuplicatesPermutes(Sells(a), Sells(b));
    forall s ensures s in Sells(a) <==> s in Sells(b) {
      assert s in multiset(Sells(a)) <==> s in multiset(Sells(b));
    }
  }

  lemma SortedGroupsAreList(t: Tables, f: Form, userIdx: int)
    ensures IsList(t, f, userIdx, OrderBy(FirstOfEach(ListRows(t, f, userIdx)), ListLe))
  {
    var rows := ListRows(t, f, userIdx);
    SortedGroups(rows, FirstOfEach(rows));
  }

  lemma SortedGroups(rows: seq<ListRow>, groups: seq<ListRow>)
    requires forall r :: r in groups ==> r in rows
    ensures forall r :: r in OrderBy(groups, ListLe) ==> r in rows
    ensures forall s :: s in Sells(OrderBy(groups, ListLe)) <==> s in Sells(groups)
    ensures NoDuplicates(Sells(OrderBy(groups, ListLe))) <==> NoDuplicates(Sells(groups))
    ensures Sorted(OrderBy(groups, ListLe), ListLe)
  {
    var out := OrderBy(groups, ListLe);
    ListLeTotal();
    OrderByArranges(groups, ListLe);
    ArrangementMembers(groups, out, ListLe);
    SameSells(groups, out);
  }

  /** `$usr`: a missing user is user 0. */
  function UserOf(user: Param): int {
    if Empty(user) then 0 else Value(user.value)
  }

  predicate UserParses(user: Param) {
    Empty(user) || Numeral(user.value)
  }

  /** Newest first, by descending id within a date. */
  ghost predicate NewestFirst(out: seq<ListRow>) {
    forall i, j :: 0 <= i < j < |out| ==>
      var m, n := out[i].row.listing, out[j].row.listing;
      m.date > n.date || (m.date == n.date && m.sellIdx > n.sellIdx)
  }

  lemma ListNewestFirst(t: Tables, f: Form, userIdx: int, out: seq<ListRow>)
    requires IsList(t, f, userIdx, out)
    ensures NewestFirst(out)
  {
    forall i, j | 0 <= i < j < |out|
      ensures var m, n := out[i].row.listing, out[j].row.listing;
              m.date > n.date || (m.date == n.date && m.sellIdx > n.sellIdx)
    {
      assert ListLe(out[i], out[j]);
      assert Sells(out)[i] != Sells(out)[j];
    }
  }

  /** setResList.php */
  method SetResList(t: Tables, f: Form, user: Param) returns (arr: seq<ListRow>)
    ensures if Parses(f) && UserParses(user) then IsList(t, f, UserOf(user), arr) else arr == []
    ensures NewestFirst(arr)
  {
    var usr := if Empty(user) then 0 else Value(user.value);
    var cond := BuildListCond(f);
    if AllLiteral(cond) && UserParses(user) {
      FilterAgree(OpenRows(t), Where(cond), AdmitsNamed(f));
      var rows := FlatMap(Filter(OpenRows(t), Where(cond)), Decorated(t, usr));
      SortedGroupsAreList(t, f, usr);
      var result := new ResultSet(OrderBy(FirstOfEach(rows), ListLe));
      arr := FetchAll(result);
      ListNewestFirst(t, f, usr, arr);
    } else {
      arr := [];
    }
  }

  // ----- the list against the count -----

  /** The row survives the list's extra inner join and its extra condition. */
  function Displayed(t: Tables, f: Form): Row -> bool {
    (row: Row) => NameMatches(f, row) && Grades(t, row) != []
  }

  /** However many labels and bookmarks it has, a row is in the list's join exactly when its
      grade exists. */
  lemma DecoratedMembers(t: Tables, userIdx: int, row: Row)
    ensures forall r :: r in Decorated(t, userIdx)(row) ==> r.row == row
    ensures Decorated(t, userIdx)(row) != [] <==> Grades(t, row) != []
  {
    var grades, labels := Grades(t, row), LabelsOf(t, row.listing.sellIdx);
    forall r ensures r in Decorated(t, userIdx)(row) ==> r.row == row && exists g :: g in grades {
      FlatMapMembers(grades, WithLabel(t, userIdx, row), r);
      if r in Decorated(t, userIdx)(row) {
        var g :| g in grades && r in WithLabel(t, userIdx, row)(g);
        FlatMapMembers(labels, WithBookmark(t, userIdx, row, g), r);
        var l :| l in labels && r in WithBookmark(t, userIdx, row, g)(l);
        MapMembers(BookmarksOf(t, row.listing.sellIdx, userIdx), (b: Option<int>) => ListRow(row, g, l, b), r);
      }
    }
    EmptyOrMember(Decorated(t, userIdx)(row));
    if grades != [] {
      var a := OrNull(Lookup(t.additional, AdditionalKey, Some(row.listing.sellIdx)))[0];
      var l := Labelled(t)(a)[0];
      FlatMapMembers(OrNull(Lookup(t.additional, AdditionalKey, Some(row.listing.sellIdx))), Labelled(t), l);
      var b := BookmarksOf(t, row.listing.sellIdx, userIdx)[0];
      var r := ListRow(row, grades[0], l, b);
      MapMembers(BookmarksOf(t, row.listing.sellIdx, userIdx), (b: Option<int>) => ListRow(row, grades[0], l, b), r);
      FlatMapMembers(labels, WithBookmark(t, userIdx, row, grades[0]), r);
      FlatMapMembers(grades, WithLabel(t, userIdx, row), r);
    }
  }

  function Shown(t: Tables, f: Form): seq<Row> {
    Filter(Matches(t, f), Displayed(t, f))
  }

  predicate IsShown(t: Tables, f: Form, row: Row) {
    OnSale(t, row) && Admits(f)(row) && Displayed(t, f)(row)
  }

  lemma ShownMembers(t: Tables, f: Form, row: Row)
    ensures row in Shown(t, f) <==> IsShown(t, f, row)
  {
    OpenRowsMembers(t, row);
    assert row in Matches(t, f) <==> row in OpenRows(t) && Admits(f)(row);
  }

  /** The listings on the list are those of the counted rows that are displayed. */
  lemma ListedSells(t: Tables, f: Form, userIdx: int)
    ensures forall s :: s in Sells(ListRows(t, f, userIdx)) <==> s in Map(Shown(t, f), RowSell)
  {
    var rows, shown := ListRows(t, f, userIdx), Shown(t, f);
    forall r | r in rows ensures exists row :: row in shown && RowSell(row) == ListSell(r) {
      ListedIsShown(t, f, userIdx, r);
      assert RowSell(r.row) == ListSell(r);
    }
    forall row | row in shown ensures exists r :: r in rows && ListSell(r) == RowSell(row) {
      var r := ShownIsListed(t, f, userIdx, row);
    }
    SameKeys(rows, shown, ListSell, RowSell);
  }

  lemma ListedIsShown(t: Tables, f: Form, userIdx: int, r: ListRow)
    requires r in ListRows(t, f, userIdx)
    ensures r.row in Shown(t, f)
  {
    var admitted := Filter(OpenRows(t), AdmitsNamed(f));
    FlatMapMembers(admitted, Decorated(t, userIdx), r);
    var row :| row in admitted && r in Decorated(t, userIdx)(row);
    DecoratedMembers(t, userIdx, row);
    assert AdmitsNamed(f)(row);
  }

  lemma ShownIsListed(t: Tables, f: Form, userIdx: int, row: Row) returns (r: ListRow)
    requires row in Shown(t, f)
    ensures r in ListRows(t, f, userIdx) && ListSell(r) == RowSell(row)
  {
    var admitted := Filter(OpenRows(t), AdmitsNamed(f));
    assert row in Matches(t, f) && Displayed(t, f)(row);
    DecoratedMembers(t, userIdx, row);
    r := Decorated(t, userIdx)(row)[0];
    assert r in Decorated(t, userIdx)(row);
    assert AdmitsNamed(f)(row);
    FlatMapMembers(admitted, Decorated(t, userIdx), r);
  }

  /** The form's result has the listing in it. */
  ghost predicate Shows(t: Tables, f: Form, sellIdx: int) {
    exists row :: IsShown(t, f, row) && RowSell(row) == sellIdx
  }

  lemma ListShows(t: Tables, f: Form, userIdx: int, out: seq<ListRow>, sellIdx: int)
    requires IsList(t, f, userIdx, out)
    ensures sellIdx in Sells(out) <==> Shows(t, f, sellIdx)
  {
    ListedSells(t, f, userIdx);
    MapMembers(Shown(t, f), RowSell, sellIdx);
    if Shows(t, f, sellIdx) {
      var row :| IsShown(t, f, row) && RowSell(row) == sellIdx;
      ShownMembers(t, f, row);
    }
    if row :| row in Shown(t, f) && RowSell(row) == sellIdx {
      ShownMembers(t, f, row);
    }
  }

  lemma ShownOncePerListing(t: Tables, f: Form)
    requires KeysUnique(t)
    ensures NoDuplicates(Map(Shown(t, f), RowSell))
  {
    OpenRowsOncePerListing(t);
    FilterUnique(OpenRows(t), Admits(f), RowSell);
    FilterUnique(Matches(t, f), Displayed(t, f), RowSell);
  }

  /** The list never has more rows than the count, and has exactly as many just when every
      counted listing has its option grade and matches the name searched for. */
  lemma ListAgainstCount(t: Tables, f: Form, userIdx: int, out: seq<ListRow>)
    requires KeysUnique(t) && IsList(t, f, userIdx, out)
    ensures |out| <= Count(t, f)
    ensures |out| == Count(t, f) <==>
            forall row :: row in Matches(t, f) ==> NameMatches(f, row) && Grades(t, row) != []
  {
    ListedSells(t, f, userIdx);
    ShownOncePerListing(t, f);
    SameMembersSameLength(Sells(out), Map(Shown(t, f), RowSell));
    FilterSubset(Matches(t, f), Displayed(t, f), Always());
    FilterAll(Matches(t, f), Always());
  }

  function Always(): Row -> bool {
    (row: Row) => true
  }

  ghost predicate GradesExist(t: Tables) {
    forall k :: k in t.connections ==> exists g :: g in t.optGrades && g.optGradeIdx == k.optGradeIdx
  }

  /** With intact foreign keys and no name, the list has exactly the counted rows. */
  lemma ListEqualsCount(t: Tables, f: Form, userIdx: int, out: seq<ListRow>)
    requires KeysUnique(t) && GradesExist(t) && Empty(f.name)
    requires IsList(t, f, userIdx, out)
    ensures |out| == Count(t, f)
  {
    forall row | row in Matches(t, f) ensures NameMatches(f, row) && Grades(t, row) != [] {
      OpenRowsMembers(t, row);
      var g :| g in t.optGrades && g.optGradeIdx == row.connection.optGradeIdx;
      assert g in Grades(t, row);
    }
    ListAgainstCount(t, f, userIdx, out);
  }

  // ----- the columns of the outer joins -----

  ghost predicate Bookmarked(t: Tables, sellIdx: int, userIdx: int) {
    exists b :: b in t.bookmarks && b.sellIdx == sellIdx && b.userIdx == userIdx
  }

  /** The outer join with the label table yields the text for the additional row. */
  ghost predicate Texts(t: Tables, a: Option<Additional>, text: Option<string>) {
    if text.Some? then a.Some? && exists l :: l in t.labels && l.labelIdx == a.value.labelIdx && l.text == text.value
    else a.Some? ==> !HasKey(t.labels, LabelKey, a.value.labelIdx)
  }

  /** The text is that of one of the listing's labels. */
  ghost predicate HasLabel(t: Tables, sellIdx: int, text: string) {
    exists a :: a in t.additional && a.sellIdx == sellIdx && Texts(t, Some(a), Some(text))
  }

  /** The listing has no label, or one that the label table lacks. */
  ghost predicate LacksLabel(t: Tables, sellIdx: int) {
    HasKey(t.additional, AdditionalKey, sellIdx) ==>
      exists a :: a in t.additional && a.sellIdx == sellIdx && Texts(t, Some(a), None)
  }

  lemma OrNullMembers<T(!new)>(s: seq<T>, x: Option<T>)
    ensures x in OrNull(s) <==> if x.Some? then x.value in s else s == []
  {
    MapMembers(s, y => Some(y), x);
    EmptyOrMember(s);
  }

  lemma BookmarkColumn(t: Tables, sellIdx: int, userIdx: int, b: Option<int>)
    ensures b in BookmarksOf(t, sellIdx, userIdx) <==>
            b == if Bookmarked(t, sellIdx, userIdx) then Some(userIdx) else None
  {
    var own := Filter(t.bookmarks, (b: Bookmark) => b.sellIdx == sellIdx && b.userIdx == userIdx);
    var ids := Map(own, (b: Bookmark) => b.userIdx);
    EmptyOrMember(own);
    OrNullMembers(ids, b);
    if b.Some? {
      MapMembers(own, (b: Bookmark) => b.userIdx, b.value);
    }
  }

  lemma LabelledMembers(t: Tables, a: Option<Additional>, text: Option<string>)
    ensures text in Labelled(t)(a) <==> Texts(t, a, text)
  {
    var found := Lookup(t.labels, LabelKey, if a.Some? then Some(a.value.labelIdx) else None);
    OrNullMembers(Map(found, (l: Label) => l.text), text);
    EmptyOrMember(found);
    assert found == [] <==> (a.Some? ==> !HasKey(t.labels, LabelKey, a.value.labelIdx));
    if text.Some? {
      MapMembers(found, (l: Label) => l.text, text.value);
    }
  }

  lemma LabelsMembers(t: Tables, sellIdx: int, text: Option<string>)
    ensures text in LabelsOf(t, sellIdx) <==>
            exists a :: a in OrNull(Lookup(t.additional, AdditionalKey, Some(sellIdx))) && Texts(t, a, text)
  {
    var mine := OrNull(Lookup(t.additional, AdditionalKey, Some(sellIdx)));
    FlatMapMembers(mine, Labelled(t), text);
    forall a ensures text in Labelled(t)(a) <==> Texts(t, a, text) {
      LabelledMembers(t, a, text);
    }
  }

  lemma LabelColumn(t: Tables, sellIdx: int, text: Option<string>)
    requires text in LabelsOf(t, sellIdx)
    ensures if text.Some? then HasLabel(t, sellIdx, text.value) else LacksLabel(t, sellIdx)
  {
    var mine := Lookup(t.additional, AdditionalKey, Some(sellIdx));
    LabelsMembers(t, sellIdx, text);
    var a :| a in OrNull(mine) && Texts(t, a, text);
    OrNullMembers(mine, a);
    if a.Some? {
      assert a.value in t.additional && a.value.sellIdx == sellIdx;
    } else {
      assert forall x :: x in t.additional && AdditionalKey(x) == sellIdx ==> x in mine;
    }
  }

  /** A row of the list shows the user's id exactly when the user bookmarked the listing, and one
      of the listing's labels or, if one is missing, null. */
  lemma ListColumns(t: Tables, f: Form, userIdx: int, out: seq<ListRow>, r: ListRow)
    requires IsList(t, f, userIdx, out) && r in out
    ensures r.bookmark == if Bookmarked(t, ListSell(r), userIdx) then Some(userIdx) else None
    ensures r.labelText.Some? ==> HasLabel(t, ListSell(r), r.labelText.value)
    ensures r.labelText.None? ==> LacksLabel(t, ListSell(r))
    ensures r.grade in t.optGrades && r.grade.optGradeIdx == r.row.connection.optGradeIdx
  {
    var admitted := Filter(OpenRows(t), AdmitsNamed(f));
    FlatMapMembers(admitted, Decorated(t, userIdx), r);
    var row :| row in admitted && r in Decorated(t, userIdx)(row);
    DecoratedColumns(t, userIdx, row, r);
  }

  lemma DecoratedColumns(t: Tables, userIdx: int, row: Row, r: ListRow)
    requires r in Decorated(t, userIdx)(row)
    ensures r.row == row && r.grade in t.optGrades && r.grade.optGradeIdx == row.connection.optGradeIdx
    ensures r.bookmark == if Bookmarked(t, RowSell(row), userIdx) then Some(userIdx) else None
    ensures if r.labelText.Some? then HasLabel(t, RowSell(row), r.labelText.value) else LacksLabel(t, RowSell(row))
  {
    var grades, labels := Grades(t, row), LabelsOf(t, row.listing.sellIdx);
    FlatMapMembers(grades, WithLabel(t, userIdx, row), r);
    var g :| g in grades && r in WithLabel(t, userIdx, row)(g);
    FlatMapMembers(labels, WithBookmark(t, userIdx, row, g), r);
    var l :| l in labels && r in WithBookmark(t, userIdx, row, g)(l);
    MapMembers(BookmarksOf(t, row.listing.sellIdx, userIdx), (b: Option<int>) => ListRow(row, g, l, b), r);
    BookmarkColumn(t, row.listing.sellIdx, userIdx, r.bookmark);
    LabelColumn(t, row.listing.sellIdx, r.labelText);
  }

  /** With an intact label table the label is null exactly when the listing has none. */
  lemma LabelsIntact(t: Tables, f: Form, userIdx: int, out: seq<ListRow>, r: ListRow)
    requires IsList(t, f, userIdx, out) && r in out
    requires forall a :: a in t.additional ==> HasKey(t.labels, LabelKey, a.labelIdx)
    ensures r.labelText.None? <==> !HasKey(t.additional, AdditionalKey, ListSell(r))
  {
    ListColumns(t, f, userIdx, out, r);
  }
}
