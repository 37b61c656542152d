/** Runs of the listing scripts: when every row keeps what it refers to, and that image names
    keep their form. */
module References {
  import opened Relational
  import opened Images
  import opened Market
  import opened Listings
  import opened Attachments
  import opened Lifecycle

  // ----- references of all tables -----

  /** The step leaves no row without what it refers to: its lookups succeed, what is sold, bumped
      or attached to exists, and what is removed was not sold, had no answered comments, and no
      other listing or ledger row needs its car. */
  ghost predicate Tidy(s: State, op: Op) {
    match op
    case Enrolling(_) => Succeeds(s, op)
    case Connecting(_, _) => Succeeds(s, op)
    case Selling(sellIdx, buyer, _) => |UsersNamed(s, buyer)| > 1 || HasListing(s.t, sellIdx)
    case Removing(sellIdx) =>
      && Unanswered(s, sellIdx)
      && !Traded(s.t, sellIdx)
      && (CarOf(s.t, sellIdx).Some? ==> CarUnused(s, sellIdx, CarOf(s.t, sellIdx).value))
    case Bumping(sellIdx, _) => HasListing(s.t, sellIdx)
    case Uploading(carIdx, flag) => flag == 0 || CarExists(s.t, carIdx)
    case Writing(w) => Attached(s, w)
  }

  /** Listings may be added, and nothing else that refers to one. */
  lemma ListingAdded(s: State, s': State, m: Listing)
    requires ListingsIntact(s) && s'.t.listings == s.t.listings + [m]
    requires s'.t.additional == s.t.additional && s'.t.bookmarks == s.t.bookmarks && s'.t.trades == s.t.trades
    requires s'.options == s.options && s'.history == s.history && s'.updates == s.updates
    requires s'.comments == s.comments
    ensures ListingsIntact(s')
  {
    forall k | HasKey(s.t.listings, ListingKey, k) ensures HasKey(s'.t.listings, ListingKey, k) {
      var n :| n in s.t.listings && ListingKey(n) == k;
      assert n in s'.t.listings;
    }
  }

  lemma EnrolledCarExists(s: State, e: Enrolment)
    ensures HasKey(EnrolCars(s.t, e), CarKey, EnrolledCar(s.t, e)) <==> Succeeds(s, Enrolling(e))
    ensures forall k :: HasKey(s.t.cars, CarKey, k) ==> HasKey(EnrolCars(s.t, e), CarKey, k)
  {
    var cars, rows := EnrolCars(s.t, e), CarsWith(s.t, e.plnumber);
    var f := Respecified(EnrolledCar(s.t, e), e.mileage, FuelFor(s.t, e), ConnectionFor(s.t, e));
    forall k | HasKey(s.t.cars, CarKey, k) ensures HasKey(cars, CarKey, k) {
      var c :| c in s.t.cars && CarKey(c) == k;
      MapMembers(s.t.cars, f, f(c));
      assert c in cars || f(c) in cars;
    }
    assert rows == [] || rows[0] in rows;
    if LookupsSucceed(s.t, e) {
      var c := EnrolledCarRow(s, e);
    }
  }

  lemma EnrolIntact(s: State, e: Enrolment)
    requires Intact(s)
    ensures Intact(Enrol(s, e)) <==> Succeeds(s, Enrolling(e))
  {
    var s', carIdx := Enrol(s, e), EnrolledCar(s.t, e);
    EnrolledCarExists(s, e);
    ListingAdded(s, s', NewListing(s.t, e));
    InsertReferring(s.t.listings, NewListing(s.t, e), ListingCar, s'.t.cars, CarKey);
    InsertReferring(s.owners, Owner(e.userIdx, carIdx), OwnerCar, s'.t.cars, CarKey);
  }

  lemma ConnectIntact(s: State, userIdx: int, plnumber: string)
    requires Intact(s)
    ensures Intact(Connect(s, userIdx, plnumber)) <==> Succeeds(s, Connecting(userIdx, plnumber))
  {
    if CarsWith(s.t, plnumber) == [] && s.t.cars != [] {
      var s', carIdx := Connect(s, userIdx, plnumber), NextId(s.t.cars, CarKey);
      RefersToMore(s.t.listings, ListingCar, s.t.cars, s'.t.cars, CarKey);
      RefersToMore(s.owners, OwnerCar, s.t.cars, s'.t.cars, CarKey);
      RefersToMore(s.carImgs, ImgCar, s.t.cars, s'.t.cars, CarKey);
      RefersToMore(s.ledger, NotedCar, s.t.cars, s'.t.cars, CarKey);
      InsertReferring(s.owners, Owner(userIdx, carIdx), OwnerCar, s'.t.cars, CarKey);
      assert forall c :: c in s.t.cars ==> CarKey(c) != carIdx;
      if Usable(s.t, ReferFor(s, plnumber)) {
        assert ReferredCar(s.t, ReferFor(s, plnumber).value, carIdx) in s'.t.cars;
      }
    }
  }

  lemma SellIntact(s: State, sellIdx: int, buyer: string, seller: int)
    requires Intact(s)
    ensures Intact(Sell(s, sellIdx, buyer, seller)) <==> Tidy(s, Selling(sellIdx, buyer, seller))
  {
    if |UsersNamed(s, buyer)| <= 1 {
      InsertReferring(s.t.trades, Sold(s, sellIdx, buyer, seller)[0], TradeSell, s.t.listings, ListingKey);
    } else {
      assert s.t.trades + [] == s.t.trades;
    }
  }

  lemma MarketIntact(s: State, op: Op)
    requires Intact(s) && Unique(s.comments, CommentKey)
    requires op.Enrolling? || op.Connecting? || op.Selling? || op.Removing?
    ensures Intact(Step(s, op)) <==> Tidy(s, op)
  {
    match op
    case Enrolling(e) => EnrolIntact(s, e);
    case Connecting(userIdx, plnumber) => ConnectIntact(s, userIdx, plnumber);
    case Selling(sellIdx, buyer, seller) => SellIntact(s, sellIdx, buyer, seller);
    case Removing(sellIdx) => CarDeletionIntact(s, sellIdx);
  }

  lemma CommentsUnique(s: State, op: Op)
    requires Unique(s.comments, CommentKey)
    ensures Unique(Step(s, op).comments, CommentKey)
  {
    if op.Removing? {
      FilterUnique(s.comments, Not(Having(CommentSell, op.sellIdx)), CommentKey);
    }
    if op.Writing? {
      AttachUnique(s, op.w);
    }
  }

  /** A step keeps all references intact exactly when it is tidy. */
  lemma StepIntact(s: State, op: Op)
    requires Intact(s) && Unique(s.comments, CommentKey)
    ensures Intact(Step(s, op)) <==> Tidy(s, op)
  {
    match op
    case Enrolling(_) => MarketIntact(s, op);
    case Connecting(_, _) => MarketIntact(s, op);
    case Selling(_, _, _) => MarketIntact(s, op);
    case Removing(_) => MarketIntact(s, op);
    case Bumping(sellIdx, now) => BumpIntact(s, sellIdx, now);
    case Uploading(carIdx, flag) => UploadIntact(s, carIdx, flag);
    case Writing(w) => AttachIntact(s, w);
  }

  ghost predicate AllTidy(s: State, ops: seq<Op>)
    decreases ops
  {
    ops == [] || (Tidy(s, ops[0]) && AllTidy(Step(s, ops[0]), ops[1..]))
  }

  ghost predicate AlwaysIntact(s: State, ops: seq<Op>)
    decreases ops
  {
    Intact(s) && (ops == [] || AlwaysIntact(Step(s, ops[0]), ops[1..]))
  }

  /** A run keeps every reference intact throughout exactly when all of it is tidy. */
  lemma {:induction false} RunIntact(s: State, ops: seq<Op>)
    requires Intact(s) && Unique(s.comments, CommentKey)
    ensures AlwaysIntact(s, ops) <==> AllTidy(s, ops)
    decreases ops
  {
    if ops == [] {
    } else {
      StepIntact(s, ops[0]);
      CommentsUnique(s, ops[0]);
      if Tidy(s, ops[0]) {
        RunIntact(Step(s, ops[0]), ops[1..]);
      }
    }
  }

  lemma {:induction false} IntactAtEnd(s: State, ops: seq<Op>)
    requires AlwaysIntact(s, ops)
    ensures Intact(Run(s, ops))
    decreases ops
  {
    if ops == [] {
    } else {
      IntactAtEnd(Step(s, ops[0]), ops[1..]);
    }
  }

  /** After a tidy run a newly inserted car has no ledger, image or owner of an earlier car. */
  lemma NewCarFresh(s: State, ops: seq<Op>, e: Enrolment)
    requires Intact(s) && Unique(s.comments, CommentKey) && AllTidy(s, ops)
    requires CarsWith(Run(s, ops).t, e.plnumber) == []
    ensures var s' := Enrol(Run(s, ops), e);
            var carIdx := EnrolledCar(Run(s, ops).t, e);
            && LedgerOf(s', carIdx) == [] && !HasKey(s'.carImgs, ImgCar, carIdx)
            && forall o :: o in s'.owners && o.carIdx == carIdx ==> o.userIdx == e.userIdx
  {
    RunIntact(s, ops);
    IntactAtEnd(s, ops);
    var now := Run(s, ops);
    NewCarLedger(now, e);
    assert !CarExists(now.t, NextId(now.t.cars, CarKey));
    forall o | o in now.owners ensures o.carIdx != NextId(now.t.cars, CarKey) {
      assert HasKey(now.t.cars, CarKey, OwnerCar(o));
    }
  }

  /** Commenting on a listing, answering and removing it: the first two keep all references
      intact, the removal leaves the reply without its comment. */
  lemma AnsweredThenRemoved(s: State, sellIdx: int, commentIdx: int, replyIdx: int)
    requires Intact(s) && Unique(s.comments, CommentKey) && HasListing(s.t, sellIdx) && !CommentExists(s, commentIdx)
    ensures var s1 := Attach(s, Commenting(Comment(commentIdx, sellIdx)));
            var s2 := Attach(s1, Answering(Reply(replyIdx, commentIdx)));
            Intact(s1) && Intact(s2) && !Intact(Remove(s2, sellIdx))
  {
    var c, r := Comment(commentIdx, sellIdx), Reply(replyIdx, commentIdx);
    AttachIntact(s, Commenting(c));
    AttachUnique(s, Commenting(c));
    EmptyOrMember(Lookup(s.comments, CommentKey, Some(commentIdx)));
    var s1 := Attach(s, Commenting(c));
    assert s1.comments == s.comments + [c] && c in s1.comments;
    AttachIntact(s1, Answering(r));
    var s2 := Attach(s1, Answering(r));
    assert r in s2.replies && UnderListing(s2, sellIdx, r.commentIdx);
    CarDeletionIntact(s2, sellIdx);
  }

  // ----- image names -----

  lemma EnrolPictured(s: State, e: Enrolment)
    requires Pictured(s)
    ensures Pictured(Enrol(s, e))
  {
    var f := Respecified(EnrolledCar(s.t, e), e.mileage, FuelFor(s.t, e), ConnectionFor(s.t, e));
    forall c | c in EnrolCars(s.t, e) && c.img.Some? ensures ImageOf("car/", c.carIdx, c.img.value) {
      MapMembers(s.t.cars, f, c);
    }
  }

  lemma ConnectPictured(s: State, userIdx: int, plnumber: string)
    requires Pictured(s)
    ensures Pictured(Connect(s, userIdx, plnumber))
  {
  }

  lemma StepPictured(s: State, op: Op)
    requires Pictured(s)
    ensures Pictured(Step(s, op))
  {
    match op
    case Enrolling(e) => EnrolPictured(s, e);
    case Connecting(userIdx, plnumber) => ConnectPictured(s, userIdx, plnumber);
    case Selling(_, _, _) =>
    case Removing(_) =>
    case Bumping(_, _) =>
    case Uploading(carIdx, flag) => UploadPictured(s, carIdx, flag);
    case Writing(w) => AttachFrame(s, w);
  }

  /** In every run image names stay those the upload makes, so that removals keep to the files
      of their own car. */
  lemma {:induction false} RunPictured(s: State, ops: seq<Op>)
    requires Pictured(s)
    ensures Pictured(Run(s, ops))
    decreases ops
  {
    if ops == [] {
    } else {
      StepPictured(s, ops[0]);
      RunPictured(Step(s, ops[0]), ops[1..]);
    }
  }
}
