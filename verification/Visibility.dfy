/** Which listings the unfiltered search shows, over runs of the listing scripts. */
module Visibility {
  import opened Relational
  import opened Market
  import opened Search
  import opened Listings
  import opened Attachments
  import opened Lifecycle

  // ----- which listings the unfiltered search shows -----

  /** The listing's car and all the catalogue entries behind it exist. */
  ghost predicate Resolved(t: Tables, carIdx: int) {
    exists c, k, o, u, g :: ResolvedBy(t, carIdx, c, k, o, u, g)
  }

  predicate ResolvedBy(t: Tables, carIdx: int, c: Car, k: Connection, o: Model, u: Fuel, g: OptGrade) {
    && c in t.cars && c.carIdx == carIdx
    && k in t.connections && c.connectionIdx == Some(k.connectionIdx)
    && o in t.models && o.modelIdx == k.modelIdx
    && u in t.fuels && c.fuelIdx == Some(u.fuelIdx)
    && g in t.optGrades && g.optGradeIdx == k.optGradeIdx
  }

  /** The unfiltered search shows the untraded listings that resolve. */
  lemma ShowsResolved(t: Tables, sellIdx: int)
    ensures Shows(t, NO_FILTER, sellIdx) <==>
            !Traded(t, sellIdx) && exists m :: m in t.listings && m.sellIdx == sellIdx && Resolved(t, m.carIdx)
  {
    if Shows(t, NO_FILTER, sellIdx) {
      var row :| IsShown(t, NO_FILTER, row) && RowSell(row) == sellIdx;
      var g := Grades(t, row)[0];
      assert g in Grades(t, row);
      assert ResolvedBy(t, row.listing.carIdx, row.car, row.connection, row.model, row.fuel, g);
    }
    if !Traded(t, sellIdx) && exists m :: m in t.listings && m.sellIdx == sellIdx && Resolved(t, m.carIdx) {
      var m :| m in t.listings && m.sellIdx == sellIdx && Resolved(t, m.carIdx);
      var c, k, o, u, g :| ResolvedBy(t, m.carIdx, c, k, o, u, g);
      var row := Row(m, c, k, o, u);
      assert g in Grades(t, row);
      assert IsShown(t, NO_FILTER, row);
    }
  }

  lemma NewCarResolves(s: State, e: Enrolment)
    requires LookupsSucceed(s.t, e)
    ensures Resolved(Enrol(s, e).t, EnrolledCar(s.t, e))
  {
    var t', carIdx := Enrol(s, e).t, EnrolledCar(s.t, e);
    var connections := Filter(s.t.connections, ConnectionNamed(s.t, e.year, e.optGradeName));
    var fuels := Lookup(s.t.fuels, Listings.FuelName, Some(Some(e.fuelName)));
    var k, u := connections[0], fuels[0];
    assert k in connections && u in fuels;
    var o :| o in s.t.models && o.modelIdx == k.modelIdx && o.year == Some(e.year);
    var g :| g in s.t.optGrades && g.optGradeIdx == k.optGradeIdx;
    var c := EnrolledCarRow(s, e);
    assert ResolvedBy(t', carIdx, c, k, o, u, g);
  }

  lemma EnrolKeepsResolved(s: State, e: Enrolment, carIdx: int)
    requires LookupsSucceed(s.t, e) && Resolved(s.t, carIdx)
    ensures Resolved(Enrol(s, e).t, carIdx)
  {
    NewCarResolves(s, e);
    if carIdx != EnrolledCar(s.t, e) {
      var c, k, o, u, g :| ResolvedBy(s.t, carIdx, c, k, o, u, g);
      var f := Respecified(EnrolledCar(s.t, e), e.mileage, FuelFor(s.t, e), ConnectionFor(s.t, e));
      MapMembers(s.t.cars, f, f(c));
      assert c in EnrolCars(s.t, e);
      assert ResolvedBy(Enrol(s, e).t, carIdx, c, k, o, u, g);
    }
  }

  lemma FailedEnrolResolves(s: State, e: Enrolment, carIdx: int)
    requires !LookupsSucceed(s.t, e)
    ensures Resolved(Enrol(s, e).t, carIdx) <==> Resolved(s.t, carIdx)
  {
    var t' := Enrol(s, e).t;
    if Resolved(t', carIdx) {
      var c, k, o, u, g :| ResolvedBy(t', carIdx, c, k, o, u, g);
      assert ResolvedBy(s.t, carIdx, c, k, o, u, g);
    }
    if Resolved(s.t, carIdx) {
      var c, k, o, u, g :| ResolvedBy(s.t, carIdx, c, k, o, u, g);
      assert ResolvedBy(t', carIdx, c, k, o, u, g);
    }
  }

  /** Whatever the state, a new listing is shown exactly when its id was never traded and its
      car resolves, by this enrolment's lookups or already before. */
  lemma EnrolledShows(s: State, e: Enrolment)
    ensures Shows(Enrol(s, e).t, NO_FILTER, NewListing(s.t, e).sellIdx) <==>
            !Traded(s.t, NewListing(s.t, e).sellIdx) && (LookupsSucceed(s.t, e) || Resolved(s.t, EnrolledCar(s.t, e)))
  {
    var t', m := Enrol(s, e).t, NewListing(s.t, e);
    if LookupsSucceed(s.t, e) {
      NewCarResolves(s, e);
    } else {
      FailedEnrolResolves(s, e, m.carIdx);
    }
    assert m in t'.listings;
    forall n | n in t'.listings && n.sellIdx == m.sellIdx ensures n == m {
      assert n in s.t.listings ==> ListingKey(n) < m.sellIdx;
    }
    assert Traded(t', m.sellIdx) <==> Traded(s.t, m.sellIdx);
    ShowsResolved(t', m.sellIdx);
  }

  lemma CarOfListing(t: Tables, sellIdx: int)
    ensures CarOf(t, sellIdx).Some? ==>
              exists m :: m in t.listings && m.sellIdx == sellIdx && m.carIdx == CarOf(t, sellIdx).value
    ensures CarOf(t, sellIdx).None? ==> !HasListing(t, sellIdx)
  {
    var rows := Lookup(t.listings, ListingKey, Some(sellIdx));
    if rows != [] {
      assert rows[0] in rows;
    } else {
      forall m | m in t.listings ensures m.sellIdx != sellIdx {
        assert m.sellIdx == sellIdx ==> m in rows;
      }
    }
  }

  lemma OneListing(t: Tables, n: Listing)
    requires Unique(t.listings, ListingKey) && n in t.listings
    ensures forall m :: m in t.listings && m.sellIdx == n.sellIdx ==> m == n
  {
    forall m | m in t.listings && m.sellIdx == n.sellIdx ensures m == n {
      SameRow(t.listings, ListingKey, m, n);
    }
  }

  /** A removal leaves another car's listings resolved and unresolves its own car's. */
  lemma RemoveResolved(s: State, sellIdx: int, carIdx: int)
    ensures Resolved(Remove(s, sellIdx).t, carIdx) <==> Resolved(s.t, carIdx) && CarOf(s.t, sellIdx) != Some(carIdx)
  {
    var t' := Remove(s, sellIdx).t;
    if Resolved(t', carIdx) {
      var c, k, o, u, g :| ResolvedBy(t', carIdx, c, k, o, u, g);
      assert ResolvedBy(s.t, carIdx, c, k, o, u, g);
    }
    if Resolved(s.t, carIdx) && CarOf(s.t, sellIdx) != Some(carIdx) {
      var c, k, o, u, g :| ResolvedBy(s.t, carIdx, c, k, o, u, g);
      assert ResolvedBy(t', carIdx, c, k, o, u, g);
    }
  }

  // ----- what a step does to a listing -----

  ghost predicate Open(t: Tables, sellIdx: int) {
    HasListing(t, sellIdx) && !Traded(t, sellIdx)
  }

  /** The listing is open and its car resolves. */
  ghost predicate Listed(t: Tables, sellIdx: int) {
    CarOf(t, sellIdx).Some? && !Traded(t, sellIdx) && Resolved(t, CarOf(t, sellIdx).value)
  }

  lemma CarOfIs(t: Tables, m: Listing)
    requires Unique(t.listings, ListingKey) && m in t.listings
    ensures CarOf(t, m.sellIdx) == Some(m.carIdx)
  {
    CarOfListing(t, m.sellIdx);
    OneListing(t, m);
    assert ListingKey(m) == m.sellIdx;
  }

  lemma ShowsListed(t: Tables, sellIdx: int)
    requires Unique(t.listings, ListingKey)
    ensures Shows(t, NO_FILTER, sellIdx) <==> Listed(t, sellIdx)
  {
    ShowsResolved(t, sellIdx);
    CarOfListing(t, sellIdx);
    forall m | m in t.listings && m.sellIdx == sellIdx ensures CarOf(t, sellIdx) == Some(m.carIdx) {
      CarOfIs(t, m);
    }
  }

  lemma StepUnique(s: State, op: Op)
    requires Unique(s.t.listings, ListingKey)
    ensures Unique(Step(s, op).t.listings, ListingKey)
  {
    match op
    case Enrolling(e) => UniqueAppend(s.t.listings, NewListing(s.t, e), ListingKey);
    case Connecting(_, _) =>
    case Selling(_, _, _) =>
    case Removing(sellIdx) => FilterUnique(s.t.listings, Not(Having(ListingKey, sellIdx)), ListingKey);
    case Bumping(sellIdx, now) => UniqueMapped(s.t.listings, Bump.Redate(sellIdx, now), ListingKey);
    case Uploading(_, _) =>
    case Writing(w) => AttachFrame(s, w);
  }

  /** A listing with the id and the car stays, perhaps with another date, unless it is removed. */
  lemma StepListing(s: State, op: Op, m: Listing) returns (n: Listing)
    requires m in s.t.listings && op != Removing(m.sellIdx)
    ensures n in Step(s, op).t.listings && n.sellIdx == m.sellIdx && n.carIdx == m.carIdx
  {
    n := m;
    match op
    case Enrolling(_) =>
    case Connecting(_, _) =>
    case Selling(_, _, _) =>
    case Removing(_) =>
    case Bumping(sellIdx, now) =>
      if Lookup(s.updates, UpdateSell, Some(sellIdx)) != [] {
        n := Bump.Redate(sellIdx, now)(m);
        MapMembers(s.t.listings, Bump.Redate(sellIdx, now), n);
      }
    case Uploading(_, _) =>
    case Writing(w) => AttachFrame(s, w);
  }

  lemma StepCarOf(s: State, op: Op, sellIdx: int)
    requires Unique(s.t.listings, ListingKey) && CarOf(s.t, sellIdx).Some?
    ensures CarOf(Step(s, op).t, sellIdx) == if op == Removing(sellIdx) then None else CarOf(s.t, sellIdx)
  {
    StepUnique(s, op);
    CarOfListing(s.t, sellIdx);
    var m :| m in s.t.listings && m.sellIdx == sellIdx && m.carIdx == CarOf(s.t, sellIdx).value;
    if op == Removing(sellIdx) {
      CarOfListing(Step(s, op).t, sellIdx);
    } else {
      var n := StepListing(s, op, m);
      CarOfIs(Step(s, op).t, n);
    }
  }

  /** The operation puts the id among the traded ones. */
  predicate MarksSold(s: State, op: Op, sellIdx: int) {
    op.Selling? && op.sellIdx == sellIdx && |UsersNamed(s, op.buyer)| <= 1
  }

  lemma StepTraded(s: State, op: Op, sellIdx: int)
    ensures Traded(Step(s, op).t, sellIdx) <==> Traded(s.t, sellIdx) || MarksSold(s, op, sellIdx)
  {
    if op.Selling? {
      var sold := Sold(s, op.sellIdx, op.buyer, op.seller);
      assert Step(s, op).t.trades == s.t.trades + sold;
      assert |UsersNamed(s, op.buyer)| <= 1 ==> sold[0] in s.t.trades + sold;
    }
    if op.Writing? {
      AttachFrame(s, op.w);
    }
  }

  /** The rows agree on what a car refers to. */
  predicate AlikeCar(c: Car, d: Car) {
    d.carIdx == c.carIdx && d.connectionIdx == c.connectionIdx && d.fuelIdx == c.fuelIdx
  }

  lemma SameCatalogue(t: Tables, t': Tables, carIdx: int)
    requires Resolved(t, carIdx)
    requires t'.connections == t.connections && t'.models == t.models
    requires t'.fuels == t.fuels && t'.optGrades == t.optGrades
    requires forall c :: c in t.cars && c.carIdx == carIdx ==>
               exists d :: d in t'.cars && AlikeCar(c, d)
    ensures Resolved(t', carIdx)
  {
    var c, k, o, u, g :| ResolvedBy(t, carIdx, c, k, o, u, g);
    var d :| d in t'.cars && AlikeCar(c, d);
    assert ResolvedBy(t', carIdx, d, k, o, u, g);
  }

  /** The operation deletes the car. */
  predicate Scraps(s: State, op: Op, carIdx: int) {
    op.Removing? && CarOf(s.t, op.sellIdx) == Some(carIdx)
  }

  lemma StepResolved(s: State, op: Op, carIdx: int)
    requires Resolved(s.t, carIdx)
    ensures Resolved(Step(s, op).t, carIdx) <==> !Scraps(s, op, carIdx)
  {
    var t' := Step(s, op).t;
    match op
    case Enrolling(e) =>
      if LookupsSucceed(s.t, e) {
        EnrolKeepsResolved(s, e, carIdx);
      } else {
        FailedEnrolResolves(s, e, carIdx);
      }
    case Connecting(_, _) =>
      assert forall c :: c in s.t.cars ==> c in t'.cars;
      SameCatalogue(s.t, t', carIdx);
    case Selling(_, _, _) => SameCatalogue(s.t, t', carIdx);
    case Removing(sellIdx) => RemoveResolved(s, sellIdx, carIdx);
    case Bumping(_, _) => SameCatalogue(s.t, t', carIdx);
    case Uploading(x, flag) => UploadResolved(s, x, flag, carIdx);
    case Writing(w) =>
      AttachFrame(s, w);
      SameCatalogue(s.t, t', carIdx);
  }

  lemma UploadResolved(s: State, x: nat, flag: nat, carIdx: int)
    requires Resolved(s.t, carIdx)
    ensures Resolved(AddCarImage(s, x, flag).t, carIdx)
  {
    var t', h := AddCarImage(s, x, flag).t, WithImage(x, Images.ImageName("car/", x, flag));
    forall c | c in s.t.cars && c.carIdx == carIdx
      ensures exists d :: d in t'.cars && AlikeCar(c, d)
    {
      MapMembers(s.t.cars, h, h(c));
      assert AlikeCar(c, c) && AlikeCar(c, h(c));
      assert if flag == 0 then h(c) in t'.cars else c in t'.cars;
    }
    SameCatalogue(s.t, t', carIdx);
  }

  /** The operation takes the listing from the search: it is sold, or a listing of its car is
      removed. */
  predicate Hides(s: State, op: Op, sellIdx: int) {
    MarksSold(s, op, sellIdx) || (op.Removing? && CarOf(s.t, op.sellIdx) == CarOf(s.t, sellIdx))
  }

  /** A shown listing stays shown exactly when the step does not hide it. */
  lemma StepShows(s: State, op: Op, sellIdx: int)
    requires Unique(s.t.listings, ListingKey) && Shows(s.t, NO_FILTER, sellIdx)
    ensures Shows(Step(s, op).t, NO_FILTER, sellIdx) <==> !Hides(s, op, sellIdx)
  {
    ShowsListed(s.t, sellIdx);
    StepUnique(s, op);
    ShowsListed(Step(s, op).t, sellIdx);
    StepCarOf(s, op, sellIdx);
    StepTraded(s, op, sellIdx);
    StepResolved(s, op, CarOf(s.t, sellIdx).value);
  }

  // ----- runs -----

  lemma {:induction false} RunUnique(s: State, ops: seq<Op>)
    requires Unique(s.t.listings, ListingKey)
    ensures Unique(Run(s, ops).t.listings, ListingKey)
    decreases ops
  {
    if ops == [] {
    } else {
      StepUnique(s, ops[0]);
      RunUnique(Step(s, ops[0]), ops[1..]);
    }
  }

  /** No operation of the run hides the listing when its turn comes. */
  predicate NeverHides(s: State, ops: seq<Op>, sellIdx: int)
    decreases ops
  {
    ops == [] || (!Hides(s, ops[0], sellIdx) && NeverHides(Step(s, ops[0]), ops[1..], sellIdx))
  }

  /** Every state of the run shows the listing. */
  ghost predicate AlwaysShows(s: State, ops: seq<Op>, sellIdx: int)
    decreases ops
  {
    Shows(s.t, NO_FILTER, sellIdx) && (ops == [] || AlwaysShows(Step(s, ops[0]), ops[1..], sellIdx))
  }

  /** In every run a shown listing stays in the unfiltered search throughout exactly when it is
      never sold and no listing of its car is removed. */
  lemma {:induction false} StaysListed(s: State, ops: seq<Op>, sellIdx: int)
    requires Unique(s.t.listings, ListingKey) && Shows(s.t, NO_FILTER, sellIdx)
    ensures AlwaysShows(s, ops, sellIdx) <==> NeverHides(s, ops, sellIdx)
    decreases ops
  {
    if ops == [] {
    } else {
      StepShows(s, ops[0], sellIdx);
      StepUnique(s, ops[0]);
      if !Hides(s, ops[0], sellIdx) {
        StaysListed(Step(s, ops[0]), ops[1..], sellIdx);
      }
    }
  }

  /** A listing enrolled anywhere in any run is shown from then on throughout exactly when its
      id was never traded, its car resolves, and nothing later hides it. */
  lemma EnrolledStaysListed(s: State, before: seq<Op>, e: Enrolment, after: seq<Op>)
    requires Unique(s.t.listings, ListingKey)
    ensures var s1 := Run(s, before);
            var sellIdx := NewListing(s1.t, e).sellIdx;
            AlwaysShows(Enrol(s1, e), after, sellIdx) <==>
            && !Traded(s1.t, sellIdx) && (LookupsSucceed(s1.t, e) || Resolved(s1.t, EnrolledCar(s1.t, e)))
            && NeverHides(Enrol(s1, e), after, sellIdx)
  {
    RunUnique(s, before);
    var s1 := Run(s, before);
    EnrolledShows(s1, e);
    StepUnique(s1, Enrolling(e));
    if Shows(Enrol(s1, e).t, NO_FILTER, NewListing(s1.t, e).sellIdx) {
      StaysListed(Enrol(s1, e), after, NewListing(s1.t, e).sellIdx);
    }
  }

  /** Once an id is sold no form ever finds it again, in any run whatever. */
  lemma {:induction false} SoldNeverShows(s: State, ops: seq<Op>, f: Form, sellIdx: int)
    requires Traded(s.t, sellIdx)
    ensures Traded(Run(s, ops).t, sellIdx) && !Shows(Run(s, ops).t, f, sellIdx)
    decreases ops
  {
    if ops == [] {
    } else {
      var d :| d in s.t.trades && d.sellIdx == sellIdx;
      assert d in Step(s, ops[0]).t.trades;
      SoldNeverShows(Step(s, ops[0]), ops[1..], f, sellIdx);
    }
  }

  // ----- sound states -----

  /** Listing ids are unique, listings resolve, and only listings are traded. */
  ghost predicate Sound(s: State) {
    && Unique(s.t.listings, ListingKey)
    && (forall m :: m in s.t.listings ==> Resolved(s.t, m.carIdx))
    && RefersTo(s.t.trades, TradeSell, s.t.listings, ListingKey)
  }

  /** In a sound state the unfiltered search shows exactly the untraded listings. */
  lemma SoundShows(s: State, sellIdx: int)
    requires Sound(s)
    ensures Shows(s.t, NO_FILTER, sellIdx) <==> Open(s.t, sellIdx)
  {
    ShowsResolved(s.t, sellIdx);
  }

  /** The car enrolled resolves afterwards, what is sold is a listing, and what is removed was
      not sold and is its car's only listing. */
  ghost predicate Allowed(s: State, op: Op) {
    match op
    case Enrolling(e) => LookupsSucceed(s.t, e) || Resolved(s.t, EnrolledCar(s.t, e))
    case Connecting(_, _) => true
    case Selling(sellIdx, buyer, _) => |UsersNamed(s, buyer)| > 1 || HasListing(s.t, sellIdx)
    case Removing(sellIdx) =>
      !Traded(s.t, sellIdx) &&
      forall n :: n in s.t.listings && CarOf(s.t, sellIdx) == Some(n.carIdx) ==> n.sellIdx == sellIdx
    case Bumping(_, _) => true
    case Uploading(_, _) => true
    case Writing(_) => true
  }

  lemma EnrolSound(s: State, e: Enrolment)
    requires Sound(s)
    ensures Sound(Enrol(s, e)) <==> Allowed(s, Enrolling(e))
  {
    var s', m := Enrol(s, e), NewListing(s.t, e);
    StepUnique(s, Enrolling(e));
    assert m in s'.t.listings;
    RefersToMore(s.t.trades, TradeSell, s.t.listings, s'.t.listings, ListingKey);
    if LookupsSucceed(s.t, e) {
      NewCarResolves(s, e);
    } else {
      FailedEnrolResolves(s, e, m.carIdx);
    }
    forall n | n in s.t.listings ensures Resolved(s'.t, n.carIdx) {
      StepResolved(s, Enrolling(e), n.carIdx);
    }
  }

  lemma RemoveSound(s: State, sellIdx: int)
    requires Sound(s)
    ensures Sound(Remove(s, sellIdx)) <==> Allowed(s, Removing(sellIdx))
  {
    StepUnique(s, Removing(sellIdx));
    DeleteReferred(s.t.trades, TradeSell, s.t.listings, ListingKey, sellIdx);
    assert HasKey(s.t.trades, TradeSell, sellIdx) <==> Traded(s.t, sellIdx);
    RemainingResolved(s, sellIdx);
  }

  /** The remaining listings resolve exactly when none of them has the removed one's car. */
  lemma RemainingResolved(s: State, sellIdx: int)
    requires Sound(s)
    ensures (forall m :: m in Remove(s, sellIdx).t.listings ==> Resolved(Remove(s, sellIdx).t, m.carIdx)) <==>
            forall n :: n in s.t.listings && CarOf(s.t, sellIdx) == Some(n.carIdx) ==> n.sellIdx == sellIdx
  {
    var t' := Remove(s, sellIdx).t;
    forall n | n in s.t.listings ensures Resolved(t', n.carIdx) <==> CarOf(s.t, sellIdx) != Some(n.carIdx) {
      RemoveResolved(s, sellIdx, n.carIdx);
    }
    forall n ensures n in t'.listings <==> n in s.t.listings && n.sellIdx != sellIdx {
      assert n in t'.listings <==> n in Delete(s.t.listings, ListingKey, sellIdx);
    }
  }

  lemma SellSound(s: State, sellIdx: int, buyer: string, seller: int)
    requires Sound(s)
    ensures Sound(Sell(s, sellIdx, buyer, seller)) <==> Allowed(s, Selling(sellIdx, buyer, seller))
  {
    var op := Selling(sellIdx, buyer, seller);
    forall m | m in s.t.listings ensures Resolved(Step(s, op).t, m.carIdx) {
      StepResolved(s, op, m.carIdx);
    }
    if |UsersNamed(s, buyer)| <= 1 {
      InsertReferring(s.t.trades, Sold(s, sellIdx, buyer, seller)[0], TradeSell, s.t.listings, ListingKey);
    } else {
      assert s.t.trades + [] == s.t.trades;
    }
  }

  lemma BumpSound(s: State, sellIdx: int, now: int)
    requires Sound(s)
    ensures Sound(BumpListing(s, sellIdx, now))
  {
    var op, s' := Bumping(sellIdx, now), BumpListing(s, sellIdx, now);
    StepUnique(s, op);
    RefersToMapped(s.t.trades, TradeSell, s.t.listings, Bump.Redate(sellIdx, now), ListingKey);
    forall m | m in s'.t.listings ensures Resolved(s'.t, m.carIdx) {
      MapMembers(s.t.listings, Bump.Redate(sellIdx, now), m);
      StepResolved(s, op, m.carIdx);
    }
  }

  lemma QuietSound(s: State, op: Op)
    requires Sound(s) && (op.Connecting? || op.Uploading? || op.Writing?)
    ensures Sound(Step(s, op))
  {
    if op.Writing? {
      AttachFrame(s, op.w);
    }
    forall m | m in s.t.listings ensures Resolved(Step(s, op).t, m.carIdx) {
      StepResolved(s, op, m.carIdx);
    }
  }

  /** A step keeps the state sound exactly when it is allowed. */
  lemma StepSound(s: State, op: Op)
    requires Sound(s)
    ensures Sound(Step(s, op)) <==> Allowed(s, op)
  {
    match op
    case Enrolling(e) => EnrolSound(s, e);
    case Connecting(_, _) => QuietSound(s, op);
    case Selling(sellIdx, buyer, seller) => SellSound(s, sellIdx, buyer, seller);
    case Removing(sellIdx) => RemoveSound(s, sellIdx);
    case Bumping(sellIdx, now) => BumpSound(s, sellIdx, now);
    case Uploading(_, _) => QuietSound(s, op);
    case Writing(_) => QuietSound(s, op);
  }

  ghost predicate AllAllowed(s: State, ops: seq<Op>)
    decreases ops
  {
    ops == [] || (Allowed(s, ops[0]) && AllAllowed(Step(s, ops[0]), ops[1..]))
  }

  ghost predicate AlwaysSound(s: State, ops: seq<Op>)
    decreases ops
  {
    Sound(s) && (ops == [] || AlwaysSound(Step(s, ops[0]), ops[1..]))
  }

  /** A run is sound in all its states exactly when every step is allowed. */
  lemma {:induction false} RunSound(s: State, ops: seq<Op>)
    requires Sound(s)
    ensures AlwaysSound(s, ops) <==> AllAllowed(s, ops)
    decreases ops
  {
    if ops == [] {
    } else {
      StepSound(s, ops[0]);
      if Allowed(s, ops[0]) {
        RunSound(Step(s, ops[0]), ops[1..]);
      }
    }
  }

  /** With no row in any table every enrolment makes the state unsound. */
  lemma EnrolUnsound(e: Enrolment)
    ensures Sound(NO_ROWS) && !Sound(Enrol(NO_ROWS, e))
  {
    EnrolSound(NO_ROWS, e);
  }

  // ----- what the restrictions on removal are for -----

  /** Removing the newest, sold listing and enrolling again reuses its id exactly when the id
      before is in use or it was the only one, and then hides the new listing from the start. */
  lemma ReusedIdHidden(s: State, sellIdx: int, e: Enrolment)
    requires Traded(s.t, sellIdx) && forall m :: m in s.t.listings ==> m.sellIdx <= sellIdx
    ensures NewListing(Remove(s, sellIdx).t, e).sellIdx == sellIdx <==>
            HasListing(s.t, sellIdx - 1) || (sellIdx == 1 && forall m :: m in s.t.listings ==> m.sellIdx == 1)
    ensures NewListing(Remove(s, sellIdx).t, e).sellIdx == sellIdx ==>
            !Shows(Enrol(Remove(s, sellIdx), e).t, NO_FILTER, sellIdx)
  {
    NextAfterDelete(s.t.listings, ListingKey, sellIdx);
    assert Remove(s, sellIdx).t.trades == s.t.trades == Enrol(Remove(s, sellIdx), e).t.trades;
    SoldNeverShows(Enrol(Remove(s, sellIdx), e), [], NO_FILTER, sellIdx);
  }

  /** A removal hides exactly the other listings of the same car along with its own. */
  lemma RemoveHidesSiblings(s: State, sellIdx: int, n: Listing)
    requires Unique(s.t.listings, ListingKey) && n in s.t.listings && n.sellIdx != sellIdx
    ensures Shows(Remove(s, sellIdx).t, NO_FILTER, n.sellIdx) <==>
            Shows(s.t, NO_FILTER, n.sellIdx) && CarOf(s.t, sellIdx) != Some(n.carIdx)
  {
    var t' := Remove(s, sellIdx).t;
    assert n in t'.listings;
    FilterUnique(s.t.listings, Not(Having(ListingKey, sellIdx)), ListingKey);
    OneListing(s.t, n);
    OneListing(t', n);
    ShowsResolved(s.t, n.sellIdx);
    ShowsResolved(t', n.sellIdx);
    RemoveResolved(s, sellIdx, n.carIdx);
    assert Traded(t', n.sellIdx) <==> Traded(s.t, n.sellIdx);
  }

  /** Two listings of one car with its catalogue entries: removing either hides the other. */
  lemma SiblingHidden(m: Listing, n: Listing, c: Car, k: Connection, o: Model, u: Fuel, g: OptGrade)
    requires m.sellIdx != n.sellIdx && m.carIdx == n.carIdx == c.carIdx
    requires c.connectionIdx == Some(k.connectionIdx) && c.fuelIdx == Some(u.fuelIdx)
    requires o.modelIdx == k.modelIdx && g.optGradeIdx == k.optGradeIdx
    ensures var s := NO_ROWS.(t := NO_ROWS.t.(listings := [m, n], cars := [c], connections := [k],
                                              models := [o], fuels := [u], optGrades := [g]));
            Shows(s.t, NO_FILTER, n.sellIdx) && !Shows(Remove(s, m.sellIdx).t, NO_FILTER, n.sellIdx)
  {
    var s := NO_ROWS.(t := NO_ROWS.t.(listings := [m, n], cars := [c], connections := [k],
                                      models := [o], fuels := [u], optGrades := [g]));
    assert m in s.t.listings && n in s.t.listings;
    assert ResolvedBy(s.t, n.carIdx, c, k, o, u, g);
    ShowsResolved(s.t, n.sellIdx);
    CarOfIs(s.t, m);
    RemoveHidesSiblings(s, m.sellIdx, n);
  }
}
