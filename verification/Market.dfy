/** The market's tables, the search form, and the rows the listing queries range over. */
module Market {
  import opened Relational
  import opened Decimals

  datatype Listing = Listing(sellIdx: int, carIdx: int, price: int, country: Option<string>, own: string, date: int)
  datatype Car = Car(carIdx: int, mileage: int, fuelIdx: Option<int>, connectionIdx: Option<int>, plnumber: string,
      img: Option<string>)
  datatype Connection = Connection(connectionIdx: int, modelIdx: int, optGradeIdx: int)
  datatype Model = Model(modelIdx: int, brand: Option<string>, name: Option<string>, year: Option<string>)
  datatype Fuel = Fuel(fuelIdx: int, fuelName: Option<string>)
  datatype OptGrade = OptGrade(optGradeIdx: int, optGradeName: string)
  datatype Trade = Trade(sellIdx: int, buyer: Option<int>, seller: int)
  datatype Additional = Additional(sellIdx: int, labelIdx: int)
  datatype Label = Label(labelIdx: int, text: string)
  datatype Bookmark = Bookmark(sellIdx: int, userIdx: int)

  /** When the listing was last bumped. */
  datatype Update = Update(sellIdx: int, stdDate: int)

  /** The register of vehicles a plate is looked up in. */
  datatype Refer = Refer(vhrno: string, cnm: string, useFuelNm: string, dspval: string, trvlDstnc: Option<int>,
      registDe: Option<int>)

  datatype Tables = Tables(
    listings: seq<Listing>, cars: seq<Car>, connections: seq<Connection>, models: seq<Model>, fuels: seq<Fuel>,
    optGrades: seq<OptGrade>, trades: seq<Trade>, additional: seq<Additional>, labels: seq<Label>,
    bookmarks: seq<Bookmark>)

  function ListingKey(m: Listing): int { m.sellIdx }
  function CarKey(c: Car): int { c.carIdx }
  function ConnectionKey(k: Connection): int { k.connectionIdx }
  function ModelKey(o: Model): int { o.modelIdx }
  function FuelKey(u: Fuel): int { u.fuelIdx }
  function OptGradeKey(g: OptGrade): int { g.optGradeIdx }
  function AdditionalKey(a: Additional): int { a.sellIdx }
  function LabelKey(l: Label): int { l.labelIdx }

  /** Primary keys of the joined tables. */
  ghost predicate KeysUnique(t: Tables) {
    && Unique(t.listings, ListingKey) && Unique(t.cars, CarKey) && Unique(t.connections, ConnectionKey)
    && Unique(t.models, ModelKey) && Unique(t.fuels, FuelKey)
  }

  ghost predicate HasListing(t: Tables, sellIdx: int) {
    HasKey(t.listings, ListingKey, sellIdx)
  }

  ghost predicate CarExists(t: Tables, carIdx: int) {
    HasKey(t.cars, CarKey, carIdx)
  }

  /** `car_market.sell_idx not in (select sell_idx from trade)` */
  predicate Traded(t: Tables, sellIdx: int) {
    exists d :: d in t.trades && d.sellIdx == sellIdx
  }

  function Untraded(t: Tables): Listing -> bool {
    (m: Listing) => !Traded(t, m.sellIdx)
  }

  /** A listing joined with its car, connection and model. */
  datatype Base = Base(listing: Listing, car: Car, connection: Connection, model: Model)

  /** The same, joined with the car's fuel too. */
  datatype Row = Row(listing: Listing, car: Car, connection: Connection, model: Model, fuel: Fuel)

  function BaseListing(b: Base): Listing { b.listing }
  function BaseSell(b: Base): int { b.listing.sellIdx }
  function RowBase(row: Row): Base { Base(row.listing, row.car, row.connection, row.model) }
  function RowSell(row: Row): int { row.listing.sellIdx }

  function WithModel(t: Tables, m: Listing, c: Car): Connection -> seq<Base> {
    (k: Connection) => Map(Lookup(t.models, ModelKey, Some(k.modelIdx)), (o: Model) => Base(m, c, k, o))
  }

  function WithConnection(t: Tables, m: Listing): Car -> seq<Base> {
    (c: Car) => FlatMap(Lookup(t.connections, ConnectionKey, c.connectionIdx), WithModel(t, m, c))
  }

  function WithCar(t: Tables): Listing -> seq<Base> {
    (m: Listing) => FlatMap(Lookup(t.cars, CarKey, Some(m.carIdx)), WithConnection(t, m))
  }

  function WithFuel(t: Tables): Base -> seq<Row> {
    (b: Base) =>
      Map(Lookup(t.fuels, FuelKey, b.car.fuelIdx), (u: Fuel) => Row(b.listing, b.car, b.connection, b.model, u))
  }

  /** The open listings' join without the fuel table. */
  function OpenBases(t: Tables): seq<Base> {
    FlatMap(Filter(t.listings, Untraded(t)), WithCar(t))
  }

  /** The join the list, count and facet queries share. */
  function OpenRows(t: Tables): seq<Row> {
    FlatMap(OpenBases(t), WithFuel(t))
  }

  /** The row satisfies the join conditions. */
  predicate Joins(t: Tables, b: Base) {
    && b.car in t.cars && b.car.carIdx == b.listing.carIdx
    && b.connection in t.connections && b.car.connectionIdx == Some(b.connection.connectionIdx)
    && b.model in t.models && b.model.modelIdx == b.connection.modelIdx
  }

  lemma WithCarMembers(t: Tables, m: Listing, b: Base)
    ensures b in WithCar(t)(m) <==> b.listing == m && Joins(t, b)
  {
    var cars := Lookup(t.cars, CarKey, Some(m.carIdx));
    FlatMapMembers(cars, WithConnection(t, m), b);
    forall c | c in cars
      ensures b in WithConnection(t, m)(c) <==> b.listing == m && b.car == c && Joins(t, b)
    {
      var connections := Lookup(t.connections, ConnectionKey, c.connectionIdx);
      FlatMapMembers(connections, WithModel(t, m, c), b);
      forall k | k in connections
        ensures b in WithModel(t, m, c)(k) <==> b.listing == m && b.car == c && b.connection == k && Joins(t, b)
      {
        MapMembers(Lookup(t.models, ModelKey, Some(k.modelIdx)), (o: Model) => Base(m, c, k, o), b);
      }
      assert b.car == c && Joins(t, b) ==> b.connection in connections;
    }
    assert b.listing == m && Joins(t, b) ==> b.car in cars;
  }

  lemma OpenBasesMembers(t: Tables, b: Base)
    ensures b in OpenBases(t) <==> b.listing in t.listings && !Traded(t, b.listing.sellIdx) && Joins(t, b)
  {
    var open := Filter(t.listings, Untraded(t));
    FlatMapMembers(open, WithCar(t), b);
    forall m | m in open ensures b in WithCar(t)(m) <==> b.listing == m && Joins(t, b) {
      WithCarMembers(t, m, b);
    }
    assert b.listing in open <==> b.listing in t.listings && Untraded(t)(b.listing);
  }

  lemma WithFuelMembers(t: Tables, b: Base, row: Row)
    ensures row in WithFuel(t)(b) <==>
            RowBase(row) == b && row.fuel in t.fuels && b.car.fuelIdx == Some(row.fuel.fuelIdx)
  {
    MapMembers(Lookup(t.fuels, FuelKey, b.car.fuelIdx), (u: Fuel) => Row(b.listing, b.car, b.connection, b.model, u),
      row);
  }

  /** The listing is open and everything it refers to exists and is in the row. */
  predicate OnSale(t: Tables, row: Row) {
    && row.listing in t.listings && !Traded(t, row.listing.sellIdx) && Joins(t, RowBase(row))
    && row.fuel in t.fuels && row.car.fuelIdx == Some(row.fuel.fuelIdx)
  }

  lemma OpenRowsMembers(t: Tables, row: Row)
    ensures row in OpenRows(t) <==> OnSale(t, row)
  {
    FlatMapMembers(OpenBases(t), WithFuel(t), row);
    OpenBasesMembers(t, RowBase(row));
    forall b | b in OpenBases(t)
      ensures row in WithFuel(t)(b) <==>
              RowBase(row) == b && row.fuel in t.fuels && b.car.fuelIdx == Some(row.fuel.fuelIdx)
    {
      WithFuelMembers(t, b, row);
    }
  }

  lemma WithCarAtMostOne(t: Tables, m: Listing)
    requires KeysUnique(t)
    ensures |WithCar(t)(m)| <= 1
  {
    var cars := Lookup(t.cars, CarKey, Some(m.carIdx));
    LookupUnique(t.cars, CarKey, Some(m.carIdx));
    forall c | c in cars ensures |WithConnection(t, m)(c)| <= 1 {
      var connections := Lookup(t.connections, ConnectionKey, c.connectionIdx);
      LookupUnique(t.connections, ConnectionKey, c.connectionIdx);
      forall k | k in connections ensures |WithModel(t, m, c)(k)| <= 1 {
        LookupUnique(t.models, ModelKey, Some(k.modelIdx));
      }
      FlatMapAtMostOne(connections, WithModel(t, m, c));
    }
    FlatMapAtMostOne(cars, WithConnection(t, m));
  }

  lemma UniqueByKey<A(!new), B(!new), K(!new)>(s: seq<A>, part: A -> B, key: B -> K, whole: A -> K)
    requires Unique(Map(s, part), key)
    requires forall x :: whole(x) == key(part(x))
    ensures Unique(s, whole)
  {
    forall i, j | 0 <= i < j < |s| ensures whole(s[i]) != whole(s[j]) {
      assert key(Map(s, part)[i]) != key(Map(s, part)[j]);
    }
  }

  /** The join keeps an untraded listing with intact references exactly once. */
  lemma OpenBasesOncePerListing(t: Tables)
    requires KeysUnique(t)
    ensures Map(OpenBases(t), BaseListing) == Filter(Filter(t.listings, Untraded(t)), NonEmpty(WithCar(t)))
    ensures Unique(OpenBases(t), BaseSell)
  {
    var open := Filter(t.listings, Untraded(t));
    forall m ensures |WithCar(t)(m)| <= 1 {
      WithCarAtMostOne(t, m);
    }
    forall m, b | m in open && b in WithCar(t)(m) ensures BaseListing(b) == m {
      WithCarMembers(t, m, b);
    }
    var id := (m: Listing) => m;
    JoinSelects(open, WithCar(t), id, BaseListing);
    var kept := Filter(open, NonEmpty(WithCar(t)));
    assert Map(kept, id) == kept;
    FilterUnique(t.listings, Untraded(t), ListingKey);
    FilterUnique(open, NonEmpty(WithCar(t)), ListingKey);
    UniqueByKey(OpenBases(t), BaseListing, ListingKey, BaseSell);
  }

  lemma OpenRowsOncePerListing(t: Tables)
    requires KeysUnique(t)
    ensures Map(OpenRows(t), RowBase) == Filter(OpenBases(t), NonEmpty(WithFuel(t)))
    ensures Unique(OpenRows(t), RowSell)
  {
    forall b ensures |WithFuel(t)(b)| <= 1 {
      LookupUnique(t.fuels, FuelKey, b.car.fuelIdx);
    }
    forall b, row | b in OpenBases(t) && row in WithFuel(t)(b) ensures RowBase(row) == b {
      WithFuelMembers(t, b, row);
    }
    var id := (b: Base) => b;
    JoinSelects(OpenBases(t), WithFuel(t), id, RowBase);
    var kept := Filter(OpenBases(t), NonEmpty(WithFuel(t)));
    assert Map(kept, id) == kept;
    OpenBasesOncePerListing(t);
    FilterUnique(OpenBases(t), NonEmpty(WithFuel(t)), BaseSell);
    UniqueByKey(OpenRows(t), RowBase, BaseSell, RowSell);
  }

  // ----- the search form -----

  /** A posted field; None when the request does not carry it. */
  type Param = Option<string>

  datatype Form = Form(brand: Param, name: Param, model: Param, grade: Param,
                       minMileage: Param, maxMileage: Param, minPrice: Param, maxPrice: Param,
                       country: Param, own: Param)

  const NO_FILTER: Form := Form(None, None, None, None, None, None, None, None, None, None)

  /** PHP `empty`: null, the empty text and the text "0". */
  predicate Empty(p: Param) {
    p == None || p == Some("") || p == Some("0")
  }

  /** A decimal literal. */
  predicate Numeral(s: string) {
    s != "" && forall c :: c in s ==> '0' <= c <= '9'
  }

  /** The number a literal denotes. */
  function Value(s: string): int {
    if s == "" then 0 else Value(s[..|s|-1]) * 10 + (s[|s|-1] as int - '0' as int)
  }

  /** SQL `like`, with its wildcards `%` and `_` and the escape character. */
  predicate LikePattern(s: string, p: string)
    decreases |s| + |p|
  {
    if p == "" then s == ""
    else if p[0] == '%' then LikePattern(s, p[1..]) || (s != "" && LikePattern(s[1..], p))
    else if p[0] == '_' then s != "" && LikePattern(s[1..], p[1..])
    else if p[0] == '\\' && |p| > 1 then s != "" && s[0] == p[1] && LikePattern(s[1..], p[2..])
    else s != "" && s[0] == p[0] && LikePattern(s[1..], p[1..])
  }

  /** `column like '%text%'`, unknown for NULL. */
  predicate Has(column: Option<string>, text: string) {
    column.Some? && LikePattern(column.value, "%" + text + "%")
  }

  /** An unset field asks for nothing, a set one for equality. */
  predicate Wants(p: Param, column: Option<string>) {
    Empty(p) || column == p
  }

  predicate Within(lo: Param, hi: Param, v: int) {
    || Empty(lo)
    || (lo.Some? && hi.Some? && Numeral(lo.value) && Numeral(hi.value) && Value(lo.value) <= v <= Value(hi.value))
  }

  /** What the form's fields other than `name` ask of a row. */
  function Admits(f: Form): Row -> bool {
    (row: Row) =>
      && Wants(f.brand, row.model.brand) && Wants(f.model, row.model.year)
      && Wants(f.grade, row.fuel.fuelName) && Wants(f.country, row.listing.country)
      && Within(f.minMileage, f.maxMileage, row.car.mileage) && Within(f.minPrice, f.maxPrice, row.listing.price)
      && (f.own == Some("y") || f.own == Some("n") ==> f.own == Some(row.listing.own))
  }

  predicate NameMatches(f: Form, row: Row) {
    Empty(f.name) || Has(row.model.year, f.name.value)
  }

  /** Both bounds of a set range are literals; otherwise the statement does not parse. */
  predicate Parses(f: Form) {
    && (!Empty(f.minMileage) ==> Numeral(f.minMileage.value) && Numeral(f.maxMileage.GetOr("")))
    && (!Empty(f.minPrice) ==> Numeral(f.minPrice.value) && Numeral(f.maxPrice.GetOr("")))
  }

  // ----- what the pattern and the literals mean -----

  /** No character of the text means anything to `like`. */
  predicate Plain(text: string) {
    forall c :: c in text ==> c != '%' && c != '_' && c != '\\'
  }

  /** What a pattern is made of: any text, any one character, or a certain character. */
  datatype Token = AnyText | AnyChar | Literal(c: char)

  function Tokens(p: string): seq<Token> {
    if p == "" then []
    else if p[0] == '\\' && |p| > 1 then [Literal(p[1])] + Tokens(p[2..])
    else [if p[0] == '%' then AnyText else if p[0] == '_' then AnyChar else Literal(p[0])] + Tokens(p[1..])
  }

  predicate Fits(part: string, token: Token) {
    match token
    case AnyText => true
    case AnyChar => |part| == 1
    case Literal(c) => part == [c]
  }

  function Joined(parts: seq<string>): string {
    if parts == [] then "" else parts[0] + Joined(parts[1..])
  }

  /** The text falls into parts that fit the pattern's tokens one by one. */
  ghost predicate Divides(s: string, p: string, parts: seq<string>) {
    var tokens := Tokens(p);
    |parts| == |tokens| && Joined(parts) == s && forall i :: 0 <= i < |parts| ==> Fits(parts[i], tokens[i])
  }

  /** A text that matches falls into parts that fit the pattern. */
  lemma {:induction false} LikeDivides(s: string, p: string) returns (parts: seq<string>)
    requires LikePattern(s, p)
    ensures Divides(s, p, parts)
    decreases |s| + |p|
  {
    if p == "" {
      parts := [];
    } else if p[0] == '%' {
      if LikePattern(s, p[1..]) {
        var rest := LikeDivides(s, p[1..]);
        parts := [""] + rest;
      } else {
        var rest := LikeDivides(s[1..], p);
        parts := [[s[0]] + rest[0]] + rest[1..];
        assert Joined(parts) == [s[0]] + rest[0] + Joined(rest[1..]) == [s[0]] + Joined(rest);
      }
    } else {
      var rest := LikeDivides(s[1..], if p[0] == '\\' && |p| > 1 then p[2..] else p[1..]);
      parts := [[s[0]]] + rest;
      assert Joined(parts) == [s[0]] + Joined(rest);
    }
  }

  /** A text that falls into parts that fit the pattern matches. */
  lemma {:induction false} DividesLike(s: string, p: string, parts: seq<string>)
    requires Divides(s, p, parts)
    ensures LikePattern(s, p)
    decreases |s| + |p|
  {
    if p == "" {
    } else {
      var first, rest := parts[0], parts[1..];
      var escaped := p[0] == '\\' && |p| > 1;
      var p' := if escaped then p[2..] else p[1..];
      assert Tokens(p)[1..] == Tokens(p');
      assert s == first + Joined(rest);
      if p[0] == '%' && first != "" {
        var shorter := [first[1..]] + rest;
        assert s[1..] == first[1..] + Joined(rest) == Joined(shorter);
        DividesLike(s[1..], p, shorter);
      } else {
        assert s[|first|..] == Joined(rest);
        DividesLike(s[|first|..], p', rest);
      }
    }
  }

  /** `like` holds exactly when the text falls into parts that fit the pattern. */
  lemma LikeMeans(s: string, p: string)
    ensures LikePattern(s, p) <==> exists parts :: Divides(s, p, parts)
  {
    if LikePattern(s, p) {
      var parts := LikeDivides(s, p);
      assert Divides(s, p, parts);
    } else {
      forall parts ensures !Divides(s, p, parts) {
        if Divides(s, p, parts) {
          DividesLike(s, p, parts);
        }
      }
    }
  }

  /** The text occurs in s. */
  ghost predicate Occurs(s: string, text: string) {
    exists i :: 0 <= i <= |s| && text <= s[i..]
  }

  lemma {:induction false} AnyEnding(s: string)
    ensures LikePattern(s, "%")
  {
    if s != "" {
      AnyEnding(s[1..]);
    }
  }

  lemma {:induction false} PlainPrefix(s: string, text: string)
    requires Plain(text)
    ensures LikePattern(s, text + "%") <==> text <= s
  {
    var p := text + "%";
    if text == "" {
      assert p == "%";
      AnyEnding(s);
    } else {
      assert p[0] == text[0] && p[1..] == text[1..] + "%" && text[0] in text;
      if s != "" {
        assert forall c :: c in text[1..] ==> c in text;
        PlainPrefix(s[1..], text[1..]);
        assert text <= s <==> text[0] == s[0] && text[1..] <= s[1..];
      }
    }
  }

  lemma OccursStep(s: string, text: string)
    ensures Occurs(s, text) <==> text <= s || (s != "" && Occurs(s[1..], text))
  {
    if text <= s {
      assert s[0..] == s;
    }
    if s != "" && Occurs(s[1..], text) {
      var i :| 0 <= i <= |s[1..]| && text <= s[1..][i..];
      assert s[1..][i..] == s[i + 1..];
    }
    if Occurs(s, text) {
      var i :| 0 <= i <= |s| && text <= s[i..];
      if i == 0 {
        assert s[0..] == s;
      } else {
        assert s[1..][i - 1..] == s[i..];
      }
    }
  }

  /** For a text without wildcards, `like '%text%'` holds exactly when the text occurs. */
  lemma {:induction false} LikeFindsText(s: string, text: string)
    requires Plain(text)
    ensures LikePattern(s, "%" + text + "%") <==> Occurs(s, text)
  {
    var p := "%" + text + "%";
    assert p[0] == '%' && p[1..] == text + "%";
    PlainPrefix(s, text);
    OccursStep(s, text);
    if s != "" {
      LikeFindsText(s[1..], text);
    }
  }

  /** A column has a plain text exactly when it is not null and the text occurs in it. */
  lemma HasFindsText(column: Option<string>, text: string)
    requires Plain(text)
    ensures Has(column, text) <==> column.Some? && Occurs(column.value, text)
  {
    if column.Some? {
      LikeFindsText(column.value, text);
    }
  }

  /** Decimal texts are literals and denote the number they print. */
  lemma {:induction false} ValueOfDecimal(n: nat)
    ensures Numeral(Decimal(n)) && Value(Decimal(n)) == n
  {
    if n < 10 {
      assert Decimal(n)[..0] == "";
    } else {
      ValueOfDecimal(n / 10);
      var s := Decimal(n);
      assert s[..|s|-1] == Decimal(n / 10) && s[|s|-1] == Digit(n % 10);
    }
  }
}
