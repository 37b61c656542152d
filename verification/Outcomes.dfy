/** What enrolling, connecting and selling write (EnrollSell.php, ConnectMycar.php, trade.php),
    column by column. */
module Outcomes {
  import opened Relational
  import opened Market
  import opened Listings
  import opened Lifecycle

  /** The car carries what the enrolment says: its plate, mileage, model year, option grade and
      fuel. */
  ghost predicate AsEnrolled(t: Tables, e: Enrolment, c: Car) {
    && c.plnumber == e.plnumber && c.mileage == e.mileage
    && (exists k, o, g :: k in t.connections && c.connectionIdx == Some(k.connectionIdx) &&
          o in t.models && o.modelIdx == k.modelIdx && o.year == Some(e.year) &&
          g in t.optGrades && g.optGradeIdx == k.optGradeIdx && g.optGradeName == e.optGradeName)
    && (exists u :: u in t.fuels && c.fuelIdx == Some(u.fuelIdx) && u.fuelName == Some(e.fuelName))
  }

  lemma ConnectionAsAsked(t: Tables, e: Enrolment)
    requires ConnectionFor(t, e).Some?
    ensures exists k, o, g :: k in t.connections && ConnectionFor(t, e) == Some(k.connectionIdx) &&
              o in t.models && o.modelIdx == k.modelIdx && o.year == Some(e.year) &&
              g in t.optGrades && g.optGradeIdx == k.optGradeIdx && g.optGradeName == e.optGradeName
  {
    var rows := Filter(t.connections, ConnectionNamed(t, e.year, e.optGradeName));
    var k := rows[0];
    assert k in rows;
    var o :| o in t.models && o.modelIdx == k.modelIdx && o.year == Some(e.year);
    var g :| g in t.optGrades && g.optGradeIdx == k.optGradeIdx && g.optGradeName == e.optGradeName;
  }

  /** The lookups fail exactly when the catalogue lacks what the enrolment names. */
  lemma LookupsSucceedMeans(t: Tables, e: Enrolment)
    ensures LookupsSucceed(t, e) <==>
            && (exists k, o, g :: k in t.connections &&
                  o in t.models && o.modelIdx == k.modelIdx && o.year == Some(e.year) &&
                  g in t.optGrades && g.optGradeIdx == k.optGradeIdx && g.optGradeName == e.optGradeName)
            && (exists u :: u in t.fuels && u.fuelName == Some(e.fuelName))
  {
    var rows := Filter(t.connections, ConnectionNamed(t, e.year, e.optGradeName));
    var fuels := Lookup(t.fuels, Listings.FuelName, Some(Some(e.fuelName)));
    EmptyOrMember(rows);
    EmptyOrMember(fuels);
    if k, o, g :| k in t.connections && o in t.models && o.modelIdx == k.modelIdx && o.year == Some(e.year) &&
                  g in t.optGrades && g.optGradeIdx == k.optGradeIdx && g.optGradeName == e.optGradeName {
      assert k in rows;
    }
    if u :| u in t.fuels && u.fuelName == Some(e.fuelName) {
      assert u in fuels;
    }
  }

  /** A successful enrolment leaves the car as it says, and every other car as it was. */
  lemma EnrolledCarWritten(s: State, e: Enrolment) returns (c: Car)
    requires LookupsSucceed(s.t, e)
    ensures c in Enrol(s, e).t.cars && c.carIdx == EnrolledCar(s.t, e) && AsEnrolled(s.t, e, c)
    ensures forall d: Car :: d.carIdx != c.carIdx ==> (d in Enrol(s, e).t.cars <==> d in s.t.cars)
  {
    var carIdx := EnrolledCar(s.t, e);
    var f := Respecified(carIdx, e.mileage, FuelFor(s.t, e), ConnectionFor(s.t, e));
    var fuels := Lookup(s.t.fuels, Listings.FuelName, Some(Some(e.fuelName)));
    assert fuels[0] in fuels;
    ConnectionAsAsked(s.t, e);
    if CarsWith(s.t, e.plnumber) != [] {
      var known := CarsWith(s.t, e.plnumber)[0];
      assert known in CarsWith(s.t, e.plnumber);
      c := f(known);
      MapMembers(s.t.cars, f, c);
      forall d: Car | d.carIdx != carIdx ensures d in Map(s.t.cars, f) <==> d in s.t.cars {
        MapMembers(s.t.cars, f, d);
      }
    } else {
      c := Car(carIdx, e.mileage, FuelFor(s.t, e), ConnectionFor(s.t, e), e.plnumber, None);
    }
  }

  /** Whatever the lookups find, one listing is added, with the enrolment's price, country, own
      flag and date; its car has an owner, the enrolling user if it had none. */
  lemma EnrolledListingWritten(s: State, e: Enrolment)
    ensures var s' := Enrol(s, e);
            exists m :: m in s'.t.listings && (forall n :: n in s.t.listings ==> n.sellIdx < m.sellIdx) &&
              m.carIdx == EnrolledCar(s.t, e) && m.price == e.price && m.country == Some(e.country) &&
              m.own == e.own && m.date == e.date &&
              (forall n :: n in s'.t.listings <==> n in s.t.listings || n == m)
    ensures var s', carIdx := Enrol(s, e), EnrolledCar(s.t, e);
            if CarsWith(s.t, e.plnumber) != [] && HasKey(s.owners, OwnerCar, carIdx) then s'.owners == s.owners
            else s'.owners == s.owners + [Owner(e.userIdx, carIdx)]
  {
    var s', m := Enrol(s, e), NewListing(s.t, e);
    assert m in s'.t.listings;
    forall n | n in s.t.listings ensures n.sellIdx < m.sellIdx {
      assert ListingKey(n) == n.sellIdx;
    }
    EmptyOrMember(Lookup(s.owners, OwnerCar, Some(EnrolledCar(s.t, e))));
    if HasKey(s.owners, OwnerCar, EnrolledCar(s.t, e)) {
      var o :| o in s.owners && OwnerCar(o) == EnrolledCar(s.t, e);
      assert o in Lookup(s.owners, OwnerCar, Some(EnrolledCar(s.t, e)));
    }
  }

  /** The id an enrolment is about: that of a car with the plate, else one above all. */
  lemma EnrolledCarMeans(t: Tables, e: Enrolment)
    ensures (exists c :: c in t.cars && c.plnumber == e.plnumber) ==>
              exists c :: c in t.cars && c.plnumber == e.plnumber && c.carIdx == EnrolledCar(t, e)
    ensures !(exists c :: c in t.cars && c.plnumber == e.plnumber) ==>
              forall c :: c in t.cars ==> c.carIdx < EnrolledCar(t, e)
  {
    var rows := CarsWith(t, e.plnumber);
    if c :| c in t.cars && c.plnumber == e.plnumber {
      assert c in rows && rows[0] in rows;
    } else {
      EmptyOrMember(rows);
      forall c | c in t.cars ensures c.carIdx < EnrolledCar(t, e) {
        assert CarKey(c) == c.carIdx;
      }
    }
  }

  /** The fuel's name as the register gives it, in two parts. */
  predicate NamesFuel(r: Refer, u: Fuel) {
    u.fuelName == Some(r.useFuelNm + " " + r.dspval + "cc")
  }

  /** The fuel the register names for the car, or none of the catalogue's. */
  ghost predicate FuelAsRegistered(t: Tables, r: Refer, fuelIdx: Option<int>) {
    if fuelIdx.Some?
    then exists u :: u in t.fuels && u.fuelIdx == fuelIdx.value && NamesFuel(r, u)
    else forall u :: u in t.fuels ==> !NamesFuel(r, u)
  }

  /** A gradeless connection of the model the register names, or none. */
  ghost predicate ConnectionAsRegistered(t: Tables, r: Refer, connectionIdx: Option<int>) {
    if connectionIdx.Some?
    then exists k, o :: k in t.connections && k.connectionIdx == connectionIdx.value && k.optGradeIdx == 0 &&
           o in t.models && o.modelIdx == k.modelIdx && o.year == Some(r.cnm)
    else forall k, o :: k in t.connections && k.optGradeIdx == 0 && o in t.models && o.year == Some(r.cnm) ==>
           o.modelIdx != k.modelIdx
  }

  /** The insert of a connected car goes through exactly when the register knows its distance and
      the catalogue has at most one fuel of the name, one model of the year and one gradeless
      connection of the model. */
  lemma InsertableMeans(t: Tables, r: Refer)
    ensures Insertable(t, r) <==>
            && r.trvlDstnc != None
            && (forall i, j :: 0 <= i < j < |t.fuels| ==> !(NamesFuel(r, t.fuels[i]) && NamesFuel(r, t.fuels[j])))
            && (forall i, j :: 0 <= i < j < |t.models| ==>
                  !(t.models[i].year == Some(r.cnm) && t.models[j].year == Some(r.cnm)))
            && (forall o, i, j :: o in t.models && o.year == Some(r.cnm) && 0 <= i < j < |t.connections| ==>
                  !(Gradeless(t.connections[i], o.modelIdx) && Gradeless(t.connections[j], o.modelIdx)))
  {
    AtMostOneSelected(t.fuels, FuelOf(r));
    AtMostOneSelected(t.models, OfYear(r.cnm));
    AtMostOneSelected(t.connections, GradelessOf(ModelOf(t, r.cnm)));
    if |ModelsOf(t, r.cnm)| <= 1 {
      OneModel(t, r.cnm);
    }
  }

  /** The model subquery's value is the one model's of the year, if there is one. */
  lemma OneModel(t: Tables, cnm: string)
    requires |ModelsOf(t, cnm)| <= 1
    ensures forall o :: o in t.models && o.year == Some(cnm) ==> ModelOf(t, cnm) == Some(o.modelIdx)
    ensures ModelOf(t, cnm).Some? ==>
              exists o :: o in t.models && o.year == Some(cnm) && ModelOf(t, cnm) == Some(o.modelIdx)
  {
    var models := ModelsOf(t, cnm);
    assert models == [] || models[0] in models;
    forall o | o in t.models && o.year == Some(cnm) ensures ModelOf(t, cnm) == Some(o.modelIdx) {
      assert o in models && models == [o];
    }
  }

  predicate Gradeless(k: Connection, modelIdx: int) {
    k.modelIdx == modelIdx && k.optGradeIdx == 0
  }

  lemma ReferredCarWritten(t: Tables, r: Refer, carIdx: int)
    requires Insertable(t, r)
    ensures var c := ReferredCar(t, r, carIdx);
            && c.carIdx == carIdx && c.plnumber == r.vhrno && r.trvlDstnc == Some(c.mileage) && c.img == None
            && FuelAsRegistered(t, r, c.fuelIdx) && ConnectionAsRegistered(t, r, c.connectionIdx)
  {
    var fuels, models := FuelsOf(t, r), ModelsOf(t, r.cnm);
    var connections := ConnectionsOf(t, ModelOf(t, r.cnm));
    assert fuels == [] || fuels[0] in fuels;
    assert models == [] || models[0] in models;
    assert connections == [] || connections[0] in connections;
    if fuels == [] {
      forall u | u in t.fuels ensures !NamesFuel(r, u) {
        assert NamesFuel(r, u) ==> u in fuels;
      }
    }
    if connections == [] {
      forall k, o | k in t.connections && k.optGradeIdx == 0 && o in t.models && o.year == Some(r.cnm)
        ensures o.modelIdx != k.modelIdx
      {
        assert o in models && models == [o];
        assert o.modelIdx == k.modelIdx ==> k in connections;
      }
    }
  }

  /** Connecting an unknown plate with a usable register row adds the car as the register has it,
      under an id above all, owned by the user. */
  lemma ConnectedCarWritten(s: State, userIdx: int, plnumber: string) returns (r: Refer, c: Car)
    requires forall d :: d in s.t.cars ==> d.plnumber != plnumber
    requires s.t.cars != [] && Usable(s.t, ReferFor(s, plnumber))
    ensures r in s.refer && r.vhrno == plnumber
    ensures c.plnumber == plnumber && r.trvlDstnc == Some(c.mileage)
    ensures forall d :: d in s.t.cars ==> d.carIdx < c.carIdx
    ensures FuelAsRegistered(s.t, r, c.fuelIdx) && ConnectionAsRegistered(s.t, r, c.connectionIdx)
    ensures Connect(s, userIdx, plnumber).t == s.t.(cars := s.t.cars + [c])
    ensures Connect(s, userIdx, plnumber).owners == s.owners + [Owner(userIdx, c.carIdx)]
  {
    EmptyOrMember(CarsWith(s.t, plnumber));
    r := ReferFor(s, plnumber).value;
    assert r in Lookup(s.refer, ReferKey, Some(plnumber));
    c := ReferredCar(s.t, r, NextId(s.t.cars, CarKey));
    ReferredCarWritten(s.t, r, NextId(s.t.cars, CarKey));
    forall d | d in s.t.cars ensures d.carIdx < c.carIdx {
      assert CarKey(d) == d.carIdx;
    }
  }

  /** A sale is recorded with its listing or part, seller and, if there is a user of that name, the
      buyer; in one of the two tables and not the other. */
  lemma SaleWritten(s: State, idx: int, buyer: string, seller: int) returns (d: Trade)
    requires Unique(s.users, UserId)
    ensures d.sellIdx == idx && d.seller == seller
    ensures forall u :: u in s.users && u.id == buyer ==> d.buyer == Some(u.userIdx)
    ensures (forall u :: u in s.users ==> u.id != buyer) ==> d.buyer == None
    ensures Sell(s, idx, buyer, seller) == s.(t := s.t.(trades := s.t.trades + [d]))
    ensures SellPart(s, idx, buyer, seller) == s.(partTrades := s.partTrades + [d])
  {
    var rows := UsersNamed(s, buyer);
    LookupUnique(s.users, UserId, Some(buyer));
    EmptyOrMember(rows);
    d := Sold(s, idx, buyer, seller)[0];
    forall u | u in s.users && u.id == buyer ensures d.buyer == Some(u.userIdx) {
      assert u in rows && rows == [rows[0]];
    }
  }
}
