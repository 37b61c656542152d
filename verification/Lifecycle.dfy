/** Runs of the listing scripts, and how they keep cars and their owners in order. */
module Lifecycle {
  import opened Relational
  import opened Market
  import opened Listings
  import opened Attachments

  datatype Op = Enrolling(e: Enrolment)
              | Connecting(userIdx: int, plnumber: string)
              | Selling(sellIdx: int, buyer: string, seller: int)
              | Removing(sellIdx: int)
              | Bumping(sellIdx: int, now: int)
              | Uploading(carIdx: nat, flag: nat)
              | Writing(w: Write)

  function Step(s: State, op: Op): State {
    match op
    case Enrolling(e) => Enrol(s, e)
    case Connecting(userIdx, plnumber) => Connect(s, userIdx, plnumber)
    case Selling(sellIdx, buyer, seller) => Sell(s, sellIdx, buyer, seller)
    case Removing(sellIdx) => Remove(s, sellIdx)
    case Bumping(sellIdx, now) => BumpListing(s, sellIdx, now)
    case Uploading(carIdx, flag) => AddCarImage(s, carIdx, flag)
    case Writing(w) => Attach(s, w)
  }

  function Run(s: State, ops: seq<Op>): State
    decreases ops
  {
    if ops == [] then s else Run(Step(s, ops[0]), ops[1..])
  }

  // ----- cars and owners -----

  /** Car ids and plates are unique, a car has at most one owner, and owners have cars. */
  ghost predicate Owned(s: State) {
    && Unique(s.t.cars, CarKey) && Unique(s.t.cars, PlateKey) && Unique(s.owners, OwnerCar)
    && RefersTo(s.owners, OwnerCar, s.t.cars, CarKey)
  }

  /** The script's lookups find what its inserts need. */
  predicate Succeeds(s: State, op: Op) {
    match op
    case Enrolling(e) => CarsWith(s.t, e.plnumber) != [] || LookupsSucceed(s.t, e)
    case Connecting(userIdx, plnumber) =>
      CarsWith(s.t, plnumber) != [] || s.t.cars == [] || Usable(s.t, ReferFor(s, plnumber))
    case Selling(_, _, _) => true
    case Removing(_) => true
    case Bumping(_, _) => true
    case Uploading(_, _) => true
    case Writing(_) => true
  }

  /** An owner row for an id no car has breaks the references. */
  lemma DanglingOwner(s: State, carIdx: int)
    requires exists o :: o in s.owners && o.carIdx == carIdx
    requires forall c :: c in s.t.cars ==> c.carIdx != carIdx
    ensures !Owned(s)
  {
    assert !CarExists(s.t, carIdx);
  }

  /** Inserting a fresh car together with its owner. */
  lemma InsertOwned(s: State, c: Car, userIdx: int)
    requires Owned(s)
    requires forall d :: d in s.t.cars ==> d.carIdx != c.carIdx && d.plnumber != c.plnumber
    ensures Owned(s.(t := s.t.(cars := s.t.cars + [c]), owners := s.owners + [Owner(userIdx, c.carIdx)]))
  {
    var s' := s.(t := s.t.(cars := s.t.cars + [c]), owners := s.owners + [Owner(userIdx, c.carIdx)]);
    UniqueAppend(s.t.cars, c, CarKey);
    UniqueAppend(s.t.cars, c, PlateKey);
    forall o | o in s.owners ensures o.carIdx != c.carIdx && CarExists(s'.t, o.carIdx) {
      var d :| d in s.t.cars && d.carIdx == o.carIdx;
      assert d in s'.t.cars;
    }
    UniqueAppend(s.owners, Owner(userIdx, c.carIdx), OwnerCar);
    assert c in s'.t.cars;
  }

  lemma EnrolledCarRow(s: State, e: Enrolment) returns (c: Car)
    requires LookupsSucceed(s.t, e)
    ensures c in EnrolCars(s.t, e) && c.carIdx == EnrolledCar(s.t, e)
    ensures c.connectionIdx == ConnectionFor(s.t, e) && c.fuelIdx == FuelFor(s.t, e)
  {
    var carIdx := EnrolledCar(s.t, e);
    if CarsWith(s.t, e.plnumber) != [] {
      var known := CarsWith(s.t, e.plnumber)[0];
      assert known in CarsWith(s.t, e.plnumber);
      var f := Respecified(carIdx, e.mileage, FuelFor(s.t, e), ConnectionFor(s.t, e));
      c := f(known);
      MapMembers(s.t.cars, f, c);
    } else {
      c := Car(carIdx, e.mileage, FuelFor(s.t, e), ConnectionFor(s.t, e), e.plnumber, None);
    }
  }

  lemma EnrolKnownOwned(s: State, e: Enrolment)
    requires Owned(s) && CarsWith(s.t, e.plnumber) != []
    ensures Owned(Enrol(s, e))
  {
    var s', carIdx := Enrol(s, e), EnrolledCar(s.t, e);
    var f := Respecified(carIdx, e.mileage, FuelFor(s.t, e), ConnectionFor(s.t, e));
    UniqueMapped(s.t.cars, f, CarKey);
    UniqueMapped(s.t.cars, f, PlateKey);
    assert CarsWith(s.t, e.plnumber)[0] in CarsWith(s.t, e.plnumber);
    forall x | CarExists(s.t, x) ensures CarExists(s'.t, x) {
      var c :| c in s.t.cars && c.carIdx == x;
      MapMembers(s.t.cars, f, f(c));
    }
    assert CarExists(s.t, carIdx);
    if Lookup(s.owners, OwnerCar, Some(carIdx)) == [] {
      forall o | o in s.owners ensures OwnerCar(o) != carIdx {
        assert o in s.owners && Some(carIdx) == Some(OwnerCar(o)) ==> o in Lookup(s.owners, OwnerCar, Some(carIdx));
      }
      UniqueAppend(s.owners, Owner(e.userIdx, carIdx), OwnerCar);
    }
  }

  lemma PlateFree(t: Tables, plnumber: string)
    requires CarsWith(t, plnumber) == []
    ensures forall c :: c in t.cars ==> c.plnumber != plnumber
  {
    forall c | c in t.cars ensures c.plnumber != plnumber {
      assert c.plnumber == plnumber ==> c in CarsWith(t, plnumber);
    }
  }

  /** Enrolment keeps cars and owners in order exactly when it succeeds. */
  lemma EnrolOwned(s: State, e: Enrolment)
    requires Owned(s)
    ensures Owned(Enrol(s, e)) <==> Succeeds(s, Enrolling(e))
  {
    if CarsWith(s.t, e.plnumber) != [] {
      EnrolKnownOwned(s, e);
    } else {
      var s', carIdx := Enrol(s, e), NextId(s.t.cars, CarKey);
      forall c | c in s.t.cars ensures c.carIdx != carIdx {
        assert CarKey(c) < carIdx;
      }
      assert s'.owners == s.owners + [Owner(e.userIdx, carIdx)];
      if LookupsSucceed(s.t, e) {
        PlateFree(s.t, e.plnumber);
        var c := Car(carIdx, e.mileage, FuelFor(s.t, e), ConnectionFor(s.t, e), e.plnumber, None);
        InsertOwned(s, c, e.userIdx);
      } else {
        assert Owner(e.userIdx, carIdx) in s'.owners;
        DanglingOwner(s', carIdx);
      }
    }
  }

  /** Connecting a car keeps cars and owners in order exactly when it succeeds. */
  lemma ConnectOwned(s: State, userIdx: int, plnumber: string)
    requires Owned(s)
    ensures Owned(Connect(s, userIdx, plnumber)) <==> Succeeds(s, Connecting(userIdx, plnumber))
  {
    if CarsWith(s.t, plnumber) == [] && s.t.cars != [] {
      var s', carIdx, r := Connect(s, userIdx, plnumber), NextId(s.t.cars, CarKey), ReferFor(s, plnumber);
      forall c | c in s.t.cars ensures c.carIdx != carIdx {
        assert CarKey(c) < carIdx;
      }
      if Usable(s.t, r) {
        PlateFree(s.t, plnumber);
        assert r.value in Lookup(s.refer, ReferKey, Some(plnumber));
        InsertOwned(s, ReferredCar(s.t, r.value, carIdx), userIdx);
      } else {
        assert Owner(userIdx, carIdx) in s'.owners;
        DanglingOwner(s', carIdx);
      }
    }
  }

  /** With no row in any table an enrolment makes its user the owner of a car that was never
      inserted. */
  lemma EnrolWithoutCatalogue(e: Enrolment)
    ensures Owned(NO_ROWS) && !Owned(Enrol(NO_ROWS, e))
  {
    EnrolOwned(NO_ROWS, e);
  }

  /** So does connecting a plate the register does not have, once there is some car. */
  lemma ConnectUnregistered(c: Car, userIdx: int, plnumber: string)
    requires c.plnumber != plnumber
    ensures var s := NO_ROWS.(t := NO_ROWS.t.(cars := [c]));
            Owned(s) && !Owned(Connect(s, userIdx, plnumber))
  {
    var s := NO_ROWS.(t := NO_ROWS.t.(cars := [c]));
    assert CarsWith(s.t, plnumber) == [];
    ConnectOwned(s, userIdx, plnumber);
  }

  lemma RemoveOwned(s: State, sellIdx: int)
    requires Owned(s)
    ensures Owned(Remove(s, sellIdx))
  {
    if CarOf(s.t, sellIdx).Some? {
      var s', carIdx := Remove(s, sellIdx), CarOf(s.t, sellIdx).value;
      FilterUnique(s.t.cars, Not(Having(CarKey, carIdx)), CarKey);
      FilterUnique(s.t.cars, Not(Having(CarKey, carIdx)), PlateKey);
      FilterUnique(s.owners, Not(Having(OwnerCar, carIdx)), OwnerCar);
      forall o | o in s'.owners ensures CarExists(s'.t, o.carIdx) {
        var c :| c in s.t.cars && c.carIdx == o.carIdx;
        assert c in s'.t.cars;
      }
    }
  }

  lemma UploadOwned(s: State, carIdx: nat, flag: nat)
    requires Owned(s)
    ensures Owned(AddCarImage(s, carIdx, flag))
  {
    var h := WithImage(carIdx, Images.ImageName("car/", carIdx, flag));
    UniqueMapped(s.t.cars, h, CarKey);
    UniqueMapped(s.t.cars, h, PlateKey);
    RefersToMapped(s.owners, OwnerCar, s.t.cars, h, CarKey);
  }

  lemma StepOwned(s: State, op: Op)
    requires Owned(s)
    ensures Owned(Step(s, op)) <==> Succeeds(s, op)
  {
    match op
    case Enrolling(e) => EnrolOwned(s, e);
    case Connecting(userIdx, plnumber) => ConnectOwned(s, userIdx, plnumber);
    case Selling(_, _, _) =>
    case Removing(sellIdx) => RemoveOwned(s, sellIdx);
    case Bumping(_, _) =>
    case Uploading(carIdx, flag) => UploadOwned(s, carIdx, flag);
    case Writing(w) => AttachFrame(s, w);
  }

  /** Every operation of the run succeeds when its turn comes. */
  predicate Successful(s: State, ops: seq<Op>)
    decreases ops
  {
    ops == [] || (Succeeds(s, ops[0]) && Successful(Step(s, ops[0]), ops[1..]))
  }

  /** Every state of the run has its cars and owners in order. */
  ghost predicate AlwaysOwned(s: State, ops: seq<Op>)
    decreases ops
  {
    Owned(s) && (ops == [] || AlwaysOwned(Step(s, ops[0]), ops[1..]))
  }

  /** A run keeps cars and owners in order throughout exactly when all of it succeeds. */
  lemma {:induction false} RunOwned(s: State, ops: seq<Op>)
    requires Owned(s)
    ensures AlwaysOwned(s, ops) <==> Successful(s, ops)
    decreases ops
  {
    if ops == [] {
    } else {
      StepOwned(s, ops[0]);
      if Succeeds(s, ops[0]) {
        RunOwned(Step(s, ops[0]), ops[1..]);
      }
    }
  }
}
