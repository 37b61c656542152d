/** The life of a listing: enrolment, connection of a car, trade and deletion
    (EnrollSell.php, ConnectMycar.php, trade.php, delCar.php). */
module Listings {
  import opened Relational
  import opened Mysqli
  import opened Images
  import opened Market

  datatype Owner = Owner(userIdx: int, carIdx: int)
  datatype User = User(userIdx: int, id: string)
  datatype Comment = Comment(commentIdx: int, sellIdx: int)
  datatype Reply = Reply(replyIdx: int, commentIdx: int)
  datatype CarImg = CarImg(carIdx: int, img: string)
  /** Rows of the tables of which only the listing id matters here. */
  datatype Tagged = Tagged(sellIdx: int, info: int)
  /** Rows of the ledger's tables (drives, oil, maintenance, crashes, reviews) of which only the
      car id matters here. */
  datatype Noted = Noted(carIdx: int, info: int)

  datatype State = State(
    t: Tables, owners: seq<Owner>, refer: seq<Refer>, users: seq<User>,
    options: seq<Tagged>, history: seq<Tagged>, updates: seq<Update>,
    comments: seq<Comment>, replies: seq<Reply>, carImgs: seq<CarImg>, ledger: seq<Noted>,
    partTrades: seq<Market.Trade>, files: set<string>)

  function PlateKey(c: Car): string { c.plnumber }
  function OwnerCar(o: Owner): int { o.carIdx }
  function ReferKey(r: Refer): string { r.vhrno }
  function UserId(u: User): string { u.id }
  function CommentSell(c: Comment): int { c.sellIdx }
  function UpdateSell(u: Update): int { u.sellIdx }
  function TaggedSell(g: Tagged): int { g.sellIdx }
  function BookmarkSell(b: Bookmark): int { b.sellIdx }
  function ImgCar(i: CarImg): int { i.carIdx }
  function NotedCar(n: Noted): int { n.carIdx }
  function ListingCar(m: Listing): int { m.carIdx }
  function TradeSell(d: Market.Trade): int { d.sellIdx }
  function FuelName(u: Fuel): Option<string> { u.fuelName }

  // ----- EnrollSell.php -----

  datatype Enrolment = Enrolment(
    userIdx: int, plnumber: string, year: string, fuelName: string, optGradeName: string,
    mileage: int, price: int, country: string, own: string, date: int)

  /** The connection's model and option grade carry the names asked for. */
  function ConnectionNamed(t: Tables, year: string, grade: string): Connection -> bool {
    (k: Connection) =>
      && (exists o :: o in t.models && o.modelIdx == k.modelIdx && o.year == Some(year))
      && (exists g :: g in t.optGrades && g.optGradeIdx == k.optGradeIdx && g.optGradeName == grade)
  }

  /** The first connection found, or null. */
  function ConnectionFor(t: Tables, e: Enrolment): Option<int> {
    var rows := Filter(t.connections, ConnectionNamed(t, e.year, e.optGradeName));
    if rows == [] then None else Some(rows[0].connectionIdx)
  }

  function FuelFor(t: Tables, e: Enrolment): Option<int> {
    var rows := Lookup(t.fuels, FuelName, Some(Some(e.fuelName)));
    if rows == [] then None else Some(rows[0].fuelIdx)
  }

  predicate LookupsSucceed(t: Tables, e: Enrolment) {
    ConnectionFor(t, e).Some? && FuelFor(t, e).Some?
  }

  function CarsWith(t: Tables, plnumber: string): seq<Car> {
    Lookup(t.cars, PlateKey, Some(plnumber))
  }

  function Respecified(carIdx: int, mileage: int, fuelIdx: Option<int>, connectionIdx: Option<int>): Car -> Car {
    (c: Car) =>
      if c.carIdx == carIdx then c.(mileage := mileage, fuelIdx := fuelIdx, connectionIdx := connectionIdx) else c
  }

  /** The car the enrolment is about, already known or about to be inserted. */
  function EnrolledCar(t: Tables, e: Enrolment): int {
    if CarsWith(t, e.plnumber) != [] then CarsWith(t, e.plnumber)[0].carIdx else NextId(t.cars, CarKey)
  }

  /** A statement with a null lookup in it does not parse, and leaves the cars alone. */
  function EnrolCars(t: Tables, e: Enrolment): seq<Car> {
    var carIdx := EnrolledCar(t, e);
    if !LookupsSucceed(t, e) then t.cars
    else if CarsWith(t, e.plnumber) != []
    then Map(t.cars, Respecified(carIdx, e.mileage, FuelFor(t, e), ConnectionFor(t, e)))
    else t.cars + [Car(carIdx, e.mileage, FuelFor(t, e), ConnectionFor(t, e), e.plnumber, None)]
  }

  function EnrolOwners(s: State, e: Enrolment): seq<Owner> {
    var carIdx := EnrolledCar(s.t, e);
    if CarsWith(s.t, e.plnumber) != [] && Lookup(s.owners, OwnerCar, Some(carIdx)) != [] then s.owners
    else s.owners + [Owner(e.userIdx, carIdx)]
  }

  function NewListing(t: Tables, e: Enrolment): Listing {
    Listing(NextId(t.listings, ListingKey), EnrolledCar(t, e), e.price, Some(e.country), e.own, e.date)
  }

  function Enrol(s: State, e: Enrolment): State {
    s.(t := s.t.(cars := EnrolCars(s.t, e), listings := s.t.listings + [NewListing(s.t, e)]),
       owners := EnrolOwners(s, e))
  }

  // ----- ConnectMycar.php -----

  function GradelessOf(modelIdx: Option<int>): Connection -> bool {
    (k: Connection) => Some(k.modelIdx) == modelIdx && k.optGradeIdx == 0
  }

  function OfYear(cnm: string): Model -> bool {
    (o: Model) => o.year == Some(cnm)
  }

  function FuelOf(r: Refer): Fuel -> bool {
    (u: Fuel) => u.fuelName == Some(r.useFuelNm + " " + r.dspval + "cc")
  }

  function ConnectionsOf(t: Tables, modelIdx: Option<int>): seq<Connection> {
    Filter(t.connections, GradelessOf(modelIdx))
  }

  function ModelsOf(t: Tables, cnm: string): seq<Model> {
    Filter(t.models, OfYear(cnm))
  }

  function FuelsOf(t: Tables, r: Refer): seq<Fuel> {
    Filter(t.fuels, FuelOf(r))
  }

  /** The model subquery's value, null when it finds nothing. */
  function ModelOf(t: Tables, cnm: string): Option<int> {
    if ModelsOf(t, cnm) == [] then None else Some(ModelsOf(t, cnm)[0].modelIdx)
  }

  /** The insert parses and none of its scalar subqueries has more than one row. */
  predicate Insertable(t: Tables, r: Refer) {
    && r.trvlDstnc.Some?
    && |FuelsOf(t, r)| <= 1 && |ModelsOf(t, r.cnm)| <= 1 && |ConnectionsOf(t, ModelOf(t, r.cnm))| <= 1
  }

  function ReferredCar(t: Tables, r: Refer, carIdx: int): Car
    requires Insertable(t, r)
  {
    var fuels, connections := FuelsOf(t, r), ConnectionsOf(t, ModelOf(t, r.cnm));
    Car(carIdx, r.trvlDstnc.value,
        if fuels == [] then None else Some(fuels[0].fuelIdx),
        if connections == [] then None else Some(connections[0].connectionIdx),
        r.vhrno, None)
  }

  /** The register's first row for the plate. */
  function ReferFor(s: State, plnumber: string): Option<Refer> {
    var rows := Lookup(s.refer, ReferKey, Some(plnumber));
    if rows == [] then None else Some(rows[0])
  }

  /** The car insert of ConnectMycar.php goes through. */
  predicate Usable(t: Tables, r: Option<Refer>) {
    r.Some? && Insertable(t, r.value)
  }

  function ReferredCars(t: Tables, r: Option<Refer>, carIdx: int): seq<Car> {
    if Usable(t, r) then [ReferredCar(t, r.value, carIdx)] else []
  }

  /** `max(car_idx) + 1` is null while there is no car. */
  function ConnectedCar(t: Tables, plnumber: string): Option<int> {
    if CarsWith(t, plnumber) != [] then Some(CarsWith(t, plnumber)[0].carIdx) else MaxPlusOne(t.cars, CarKey)
  }

  /** With no car at all the new id is null and nothing is inserted; otherwise the owner row
      is inserted whether or not the car row was. */
  function Connect(s: State, userIdx: int, plnumber: string): State {
    if CarsWith(s.t, plnumber) != [] || s.t.cars == [] then s
    else
      var carIdx := NextId(s.t.cars, CarKey);
      s.(t := s.t.(cars := s.t.cars + ReferredCars(s.t, ReferFor(s, plnumber), carIdx)),
         owners := s.owners + [Owner(userIdx, carIdx)])
  }

  // ----- insImg.php -----

  function WithImage(carIdx: int, name: string): Car -> Car {
    (c: Car) => if c.carIdx == carIdx then c.(img := Some(name)) else c
  }

  /** The image with flag 0 is the car's own, the others have rows. */
  function AddCarImage(s: State, carIdx: nat, flag: nat): State {
    var name := ImageName("car/", carIdx, flag);
    if flag == 0
    then s.(t := s.t.(cars := Map(s.t.cars, WithImage(carIdx, name))), files := s.files + {name})
    else s.(carImgs := s.carImgs + [CarImg(carIdx, name)], files := s.files + {name})
  }

  // ----- trade.php -----

  function UsersNamed(s: State, id: string): seq<User> {
    Lookup(s.users, UserId, Some(id))
  }

  /** The row to insert; none if the buyer's name is ambiguous, and no buyer if it is unknown. */
  function Sold(s: State, idx: int, buyer: string, seller: int): seq<Market.Trade> {
    var rows := UsersNamed(s, buyer);
    if |rows| > 1 then [] else [Market.Trade(idx, if rows == [] then None else Some(rows[0].userIdx), seller)]
  }

  function Sell(s: State, sellIdx: int, buyer: string, seller: int): State {
    s.(t := s.t.(trades := s.t.trades + Sold(s, sellIdx, buyer, seller)))
  }

  function SellPart(s: State, marketIdx: int, buyer: string, seller: int): State {
    s.(partTrades := s.partTrades + Sold(s, marketIdx, buyer, seller))
  }

  // ----- delCar.php -----

  function CarOf(t: Tables, sellIdx: int): Option<int> {
    var rows := Lookup(t.listings, ListingKey, Some(sellIdx));
    if rows == [] then None else Some(rows[0].carIdx)
  }

  function ImageNames(imgs: seq<CarImg>): set<string> {
    set i | i in imgs :: i.img
  }

  function FirstImage(t: Tables, carIdx: int): set<string> {
    var rows := Lookup(t.cars, CarKey, Some(carIdx));
    if rows != [] && rows[0].img.Some? then {rows[0].img.value} else {}
  }

  function WithoutTags(s: State, sellIdx: int): State {
    s.(t := s.t.(additional := Delete(s.t.additional, AdditionalKey, sellIdx),
                 bookmarks := Delete(s.t.bookmarks, BookmarkSell, sellIdx)),
       options := Delete(s.options, TaggedSell, sellIdx),
       history := Delete(s.history, TaggedSell, sellIdx),
       updates := Delete(s.updates, UpdateSell, sellIdx))
  }

  function WithoutListing(s: State, sellIdx: int): State {
    var s' := WithoutTags(s, sellIdx);
    s'.(t := s'.t.(listings := Delete(s.t.listings, ListingKey, sellIdx)),
        comments := Delete(s.comments, CommentSell, sellIdx))
  }

  function WithoutCar(s: State, carIdx: int): State {
    s.(t := s.t.(cars := Delete(s.t.cars, CarKey, carIdx)),
       owners := Delete(s.owners, OwnerCar, carIdx),
       carImgs := Delete(s.carImgs, ImgCar, carIdx),
       files := s.files - ImageNames(Lookup(s.carImgs, ImgCar, Some(carIdx))) - FirstImage(s.t, carIdx))
  }

  /** The deletion as the script performs it: the replies stay, because the loop that should
      delete them reads the result set of the listing's car. */
  function Remove(s: State, sellIdx: int): State {
    match CarOf(s.t, sellIdx)
    case None => WithoutListing(s, sellIdx)
    case Some(carIdx) => WithoutCar(WithoutListing(s, sellIdx), carIdx)
  }

  // ----- delSellComment.php -----

  function ReplyKey(r: Reply): int { r.replyIdx }
  function ReplyComment(r: Reply): int { r.commentIdx }

  function WithoutSellReply(s: State, replyIdx: int): State {
    s.(replies := Delete(s.replies, ReplyKey, replyIdx))
  }

  function WithoutSellComment(s: State, commentIdx: int): State {
    s.(replies := Delete(s.replies, ReplyComment, commentIdx),
       comments := Delete(s.comments, CommentKey, commentIdx))
  }

  // ----- the scripts -----

  class Database {
    var db: State

    method EnrollSell(e: Enrolment) returns (carIdx: int, sellIdx: int)
      modifies this
      ensures db == Enrol(old(db), e)
      ensures sellIdx == NewListing(old(db).t, e).sellIdx && carIdx == EnrolledCar(old(db).t, e)
    {
      var connectionIdx, fuelIdx := ConnectionFor(db.t, e), FuelFor(db.t, e);
      var result9 := new ResultSet(CarsWith(db.t, e.plnumber));
      if |result9.rows| != 0 {
        var car := result9.Fetch();
        carIdx := car.value.carIdx;
        if connectionIdx.Some? && fuelIdx.Some? {
          db := db.(t := db.t.(cars := Map(db.t.cars, Respecified(carIdx, e.mileage, fuelIdx, connectionIdx))));
        }
        if |Lookup(db.owners, OwnerCar, Some(carIdx))| == 0 {
          db := db.(owners := db.owners + [Owner(e.userIdx, carIdx)]);
        }
      } else {
        carIdx := NextId(db.t.cars, CarKey);
        if connectionIdx.Some? && fuelIdx.Some? {
          db := db.(t := db.t.(cars := db.t.cars + [Car(carIdx, e.mileage, fuelIdx, connectionIdx, e.plnumber, None)]));
        }
        db := db.(owners := db.owners + [Owner(e.userIdx, carIdx)]);
      }
      sellIdx := NextId(db.t.listings, ListingKey);
      db := db.(t := db.t.(listings :=
        db.t.listings + [Listing(sellIdx, carIdx, e.price, Some(e.country), e.own, e.date)]));
    }

    method ConnectMycar(userIdx: int, plnumber: string) returns (carIdx: Option<int>)
      modifies this
      ensures db == Connect(old(db), userIdx, plnumber)
      ensures carIdx == ConnectedCar(old(db).t, plnumber)
    {
      var result := new ResultSet(CarsWith(db.t, plnumber));
      if |result.rows| != 0 {
        var car := result.Fetch();
        carIdx := Some(car.value.carIdx);
      } else {
        var row := ReferFor(db, plnumber);
        carIdx := MaxPlusOne(db.t.cars, CarKey);
        if carIdx.Some? {
          db := db.(t := db.t.(cars := db.t.cars + ReferredCars(db.t, row, carIdx.value)));
          db := db.(owners := db.owners + [Owner(userIdx, carIdx.value)]);
        }
      }
    }

    method InsImg(carIdx: nat, flag: nat)
      modifies this
      ensures db == AddCarImage(old(db), carIdx, flag)
    {
      var filename := ImageName("car/", carIdx, flag);
      db := db.(files := db.files + {filename});
      if flag == 0 {
        db := db.(t := db.t.(cars := Map(db.t.cars, WithImage(carIdx, filename))));
      } else {
        db := db.(carImgs := db.carImgs + [CarImg(carIdx, filename)]);
      }
    }

    method Trade(table: string, idx: int, buyer: string, seller: int)
      modifies this
      ensures db == if table == "trade" then Sell(old(db), idx, buyer, seller)
                    else if table == "part_trade" then SellPart(old(db), idx, buyer, seller)
                    else old(db)
    {
      var rows := UsersNamed(db, buyer);
      if |rows| <= 1 {
        var sold := Market.Trade(idx, if rows == [] then None else Some(rows[0].userIdx), seller);
        if table == "trade" {
          db := db.(t := db.t.(trades := db.t.trades + [sold]));
        } else if table == "part_trade" {
          db := db.(partTrades := db.partTrades + [sold]);
        }
      }
    }

    method DelSellComment(kind: string, idx: int)
      modifies this
      ensures db == if kind == "recomment" then WithoutSellReply(old(db), idx)
                    else if kind == "comment" then WithoutSellComment(old(db), idx)
                    else old(db)
      ensures kind == "recomment" ==> forall r :: r in db.replies <==> r in old(db).replies && r.replyIdx != idx
      ensures kind == "comment" ==> forall r :: r in db.replies <==> r in old(db).replies && r.commentIdx != idx
    {
      if kind == "recomment" {
        db := db.(replies := Delete(db.replies, ReplyKey, idx));
      } else if kind == "comment" {
        db := db.(replies := Delete(db.replies, ReplyComment, idx));
        db := db.(comments := Delete(db.comments, CommentKey, idx));
      }
    }

    /** The loop of delCar.php, lines 27-31: rowCnt times it fetches from `result` and deletes the
        replies to the comment named in the fetched row, if one is. */
    method DeleteReplies(result: ResultSet<Assoc>, rowCnt: nat)
      requires result.Valid()
      modifies this, result
      ensures db == old(db).(replies := Unanswering(old(db).replies, Taken(result.rows, old(result.next), rowCnt)))
    {
      ghost var from, all := result.next, db.replies;
      NothingMentioned(all, ReplyComment, Taken(result.rows, from, 0), "sell_comment_idx");
      for i := 0 to rowCnt
        invariant result.Valid()
        invariant result.next == if i <= |result.rows| - from then from + i else |result.rows|
        invariant db == old(db).(replies := Unanswering(all, Taken(result.rows, from, i)))
      {
        var row := result.Fetch();
        var commentIdx := Field(row, "sell_comment_idx");
        if commentIdx.Some? {
          db := db.(replies := Delete(db.replies, ReplyComment, commentIdx.value));
        }
        MentionedNext(all, ReplyComment, result.rows, "sell_comment_idx", from, i);
      }
    }

    method DelCar(sellIdx: int)
      modifies this
      ensures db == Remove(old(db), sellIdx)
    {
      var found := Lookup(db.t.listings, ListingKey, Some(sellIdx));
      var result := new ResultSet<Assoc>(Column(found, "car_idx", ListingCar));
      var car := result.Fetch();
      var carIdx := Field(car, "car_idx");
      DeleteListing(result, sellIdx, found);
      if carIdx.Some? {
        DeleteCar(carIdx.value);
      }
    }

    /** Lines 16-33. */
    method DeleteListing(result: ResultSet<Assoc>, sellIdx: int, ghost found: seq<Listing>)
      requires result.Valid() && result.rows == Column(found, "car_idx", ListingCar)
      modifies this, result
      ensures db == WithoutListing(old(db), sellIdx)
    {
      DeleteTags(sellIdx);
      DeleteComments(result, sellIdx, found);
      db := db.(t := db.t.(listings := Delete(db.t.listings, ListingKey, sellIdx)));
    }

    /** Lines 16-20. */
    method DeleteTags(sellIdx: int)
      modifies this
      ensures db == WithoutTags(old(db), sellIdx)
    {
      db := db.(t := db.t.(additional := Delete(db.t.additional, AdditionalKey, sellIdx)));
      db := db.(t := db.t.(bookmarks := Delete(db.t.bookmarks, BookmarkSell, sellIdx)));
      db := db.(options := Delete(db.options, TaggedSell, sellIdx));
      db := db.(history := Delete(db.history, TaggedSell, sellIdx));
      db := db.(updates := Delete(db.updates, UpdateSell, sellIdx));
    }

    /** Lines 23-32. */
    method DeleteComments(result: ResultSet<Assoc>, sellIdx: int, ghost found: seq<Listing>)
      requires result.Valid() && result.rows == Column(found, "car_idx", ListingCar)
      modifies this, result
      ensures db == old(db).(comments := Delete(old(db).comments, CommentSell, sellIdx))
    {
      var rowCnt := |Lookup(db.comments, CommentSell, Some(sellIdx))|;
      OtherColumn(found, ListingCar, "car_idx", result.next, rowCnt, db.replies, ReplyComment, "sell_comment_idx");
      DeleteReplies(result, rowCnt);
      db := db.(comments := Delete(db.comments, CommentSell, sellIdx));
    }

    /** Lines 34-51. */
    method DeleteCar(carIdx: int)
      modifies this
      ensures db == WithoutCar(old(db), carIdx)
    {
      db := db.(owners := Delete(db.owners, OwnerCar, carIdx));
      var result3 := new ResultSet(Lookup(db.carImgs, ImgCar, Some(carIdx)));
      Unlink(result3);
      db := db.(carImgs := Delete(db.carImgs, ImgCar, carIdx));
      db := db.(files := db.files - FirstImage(db.t, carIdx));
      db := db.(t := db.t.(cars := Delete(db.t.cars, CarKey, carIdx)));
    }

    /** The loop of lines 40-44. */
    method Unlink(result: ResultSet<CarImg>)
      requires result.Valid() && result.next == 0
      modifies this, result
      ensures db == old(db).(files := old(db).files - ImageNames(result.rows))
    {
      for i := 0 to |result.rows|
        invariant result.Valid() && result.next == i
        invariant db == old(db).(files := old(db).files - ImageNames(result.rows[..i]))
      {
        assert result.rows[..i+1] == result.rows[..i] + [result.rows[i]];
        var row := result.Fetch();
        db := db.(files := db.files - {row.value.img});
      }
      assert result.rows[..|result.rows|] == result.rows;
    }
  }

  /** The replies to comments the fetched rows do not mention. */
  function Unanswering(replies: seq<Reply>, rows: seq<Assoc>): seq<Reply> {
    WithoutMentioned(replies, ReplyComment, rows, "sell_comment_idx")
  }

  // ----- references -----

  function CommentKey(c: Comment): int { c.commentIdx }

  ghost predicate CommentExists(s: State, commentIdx: int) {
    HasKey(s.comments, CommentKey, commentIdx)
  }

  /** Every reply answers an existing comment. */
  ghost predicate RepliesAnswer(s: State) {
    RefersTo(s.replies, ReplyComment, s.comments, CommentKey)
  }

  ghost predicate TagsIntact(s: State) {
    && RefersTo(s.t.additional, AdditionalKey, s.t.listings, ListingKey)
    && RefersTo(s.t.bookmarks, BookmarkSell, s.t.listings, ListingKey)
    && RefersTo(s.options, TaggedSell, s.t.listings, ListingKey)
    && RefersTo(s.history, TaggedSell, s.t.listings, ListingKey)
    && RefersTo(s.updates, UpdateSell, s.t.listings, ListingKey)
  }

  /** What belongs to a listing, sales included, belongs to an existing one. */
  ghost predicate ListingsIntact(s: State) {
    && TagsIntact(s)
    && RefersTo(s.comments, CommentSell, s.t.listings, ListingKey)
    && RefersTo(s.t.trades, TradeSell, s.t.listings, ListingKey)
  }

  /** What belongs to a car belongs to an existing one. */
  ghost predicate CarsIntact(s: State) {
    && RefersTo(s.t.listings, ListingCar, s.t.cars, CarKey)
    && RefersTo(s.owners, OwnerCar, s.t.cars, CarKey)
    && RefersTo(s.carImgs, ImgCar, s.t.cars, CarKey)
    && RefersTo(s.ledger, NotedCar, s.t.cars, CarKey)
  }

  ghost predicate Intact(s: State) {
    RepliesAnswer(s) && ListingsIntact(s) && CarsIntact(s)
  }

  ghost predicate UnderListing(s: State, sellIdx: int, commentIdx: int) {
    Under(s.comments, CommentKey, CommentSell, commentIdx, sellIdx)
  }

  /** No reply answers a comment on the listing. */
  ghost predicate Unanswered(s: State, sellIdx: int) {
    forall r :: r in s.replies ==> !UnderListing(s, sellIdx, r.commentIdx)
  }

  /** Deleting a comment leaves no reply to it, removes no other reply or comment, and keeps
      the remaining references intact. */
  lemma SellCommentDeletion(s: State, commentIdx: int)
    requires RepliesAnswer(s)
    ensures RepliesAnswer(WithoutSellComment(s, commentIdx))
    ensures !CommentExists(WithoutSellComment(s, commentIdx), commentIdx)
    ensures forall r :: r in s.replies ==>
              (r in WithoutSellComment(s, commentIdx).replies <==> r.commentIdx != commentIdx)
    ensures forall c :: c in s.comments ==>
              (c in WithoutSellComment(s, commentIdx).comments <==> c.commentIdx != commentIdx)
  {
    DeleteBoth(s.replies, ReplyComment, s.comments, CommentKey, commentIdx);
  }

  /** Deleting a listing leaves replies to vanished comments behind, unless its comments had
      none. */
  lemma CarDeletionReplies(s: State, sellIdx: int)
    requires RepliesAnswer(s) && Unique(s.comments, CommentKey)
    ensures RepliesAnswer(Remove(s, sellIdx)) <==> Unanswered(s, sellIdx)
  {
    assert Remove(s, sellIdx).replies == s.replies;
    assert Remove(s, sellIdx).comments == Delete(s.comments, CommentSell, sellIdx);
    DeleteOwned(s.replies, ReplyComment, s.comments, CommentKey, CommentSell, sellIdx);
  }

  /** A removal takes the listing's rows in the five tables of its tags and no other listing's,
      and leaves no such row without its listing. */
  lemma RemovalTakesTags(s: State, sellIdx: int)
    ensures var s' := Remove(s, sellIdx);
            && (forall a :: a in s'.t.additional <==> a in s.t.additional && a.sellIdx != sellIdx)
            && (forall b :: b in s'.t.bookmarks <==> b in s.t.bookmarks && b.sellIdx != sellIdx)
            && (forall g :: g in s'.options <==> g in s.options && g.sellIdx != sellIdx)
            && (forall g :: g in s'.history <==> g in s.history && g.sellIdx != sellIdx)
            && (forall u :: u in s'.updates <==> u in s.updates && u.sellIdx != sellIdx)
    ensures TagsIntact(s) ==> TagsIntact(Remove(s, sellIdx))
  {
    if TagsIntact(s) {
      TagReferences(s, sellIdx);
    }
  }

  lemma TagReferences(s: State, sellIdx: int)
    requires TagsIntact(s)
    ensures TagsIntact(Remove(s, sellIdx))
  {
    DeleteBoth(s.t.additional, AdditionalKey, s.t.listings, ListingKey, sellIdx);
    DeleteBoth(s.t.bookmarks, BookmarkSell, s.t.listings, ListingKey, sellIdx);
    DeleteBoth(s.options, TaggedSell, s.t.listings, ListingKey, sellIdx);
    DeleteBoth(s.history, TaggedSell, s.t.listings, ListingKey, sellIdx);
    DeleteBoth(s.updates, UpdateSell, s.t.listings, ListingKey, sellIdx);
  }

  /** It takes the listing and its comments and no others, but none of its sales: every reference
      to a listing stays intact exactly when it was not sold. */
  lemma RemovalTakesListing(s: State, sellIdx: int)
    ensures var s' := Remove(s, sellIdx);
            && (forall m :: m in s'.t.listings <==> m in s.t.listings && m.sellIdx != sellIdx)
            && (forall c :: c in s'.comments <==> c in s.comments && c.sellIdx != sellIdx)
            && (HasKey(s'.t.trades, TradeSell, sellIdx) <==> Traded(s.t, sellIdx))
            && (ListingsIntact(s) ==> (ListingsIntact(s') <==> !Traded(s.t, sellIdx)))
  {
    if ListingsIntact(s) {
      TagReferences(s, sellIdx);
      DeleteBoth(s.comments, CommentSell, s.t.listings, ListingKey, sellIdx);
      DeleteReferred(s.t.trades, TradeSell, s.t.listings, ListingKey, sellIdx);
    }
  }

  /** No other listing and no ledger row has the listing's car. */
  ghost predicate CarUnused(s: State, sellIdx: int, carIdx: int) {
    && (forall n :: n in s.t.listings && n.carIdx == carIdx ==> n.sellIdx == sellIdx)
    && !HasKey(s.ledger, NotedCar, carIdx)
  }

  lemma CarReferences(s: State, sellIdx: int, carIdx: int)
    requires CarsIntact(s) && CarOf(s.t, sellIdx) == Some(carIdx)
    ensures CarsIntact(Remove(s, sellIdx)) <==> CarUnused(s, sellIdx, carIdx)
  {
    var left := Delete(s.t.listings, ListingKey, sellIdx);
    assert HasKey(left, ListingCar, carIdx) <==>
           exists n :: n in s.t.listings && n.sellIdx != sellIdx && ListingCar(n) == carIdx;
    DeleteReferred(left, ListingCar, s.t.cars, CarKey, carIdx);
    DeleteBoth(s.owners, OwnerCar, s.t.cars, CarKey, carIdx);
    DeleteBoth(s.carImgs, ImgCar, s.t.cars, CarKey, carIdx);
    DeleteReferred(s.ledger, NotedCar, s.t.cars, CarKey, carIdx);
  }

  /** A removal keeps every reference intact exactly when the listing's comments had no replies,
      it was not sold, and nothing else needs its car. */
  lemma CarDeletionIntact(s: State, sellIdx: int)
    requires Intact(s) && Unique(s.comments, CommentKey)
    ensures Intact(Remove(s, sellIdx)) <==>
            && Unanswered(s, sellIdx)
            && !Traded(s.t, sellIdx)
            && (CarOf(s.t, sellIdx).Some? ==> CarUnused(s, sellIdx, CarOf(s.t, sellIdx).value))
  {
    CarDeletionReplies(s, sellIdx);
    RemovalTakesListing(s, sellIdx);
    if CarOf(s.t, sellIdx).Some? {
      CarReferences(s, sellIdx, CarOf(s.t, sellIdx).value);
    }
  }

  // ----- image files -----

  /** Image names are those insImg.php makes. */
  ghost predicate Pictured(s: State) {
    && (forall c :: c in s.t.cars && c.img.Some? ==> ImageOf("car/", c.carIdx, c.img.value))
    && (forall i :: i in s.carImgs ==> ImageOf("car/", i.carIdx, i.img))
  }

  /** An upload keeps them so, and adds a file of its own car alone. */
  lemma UploadPictured(s: State, carIdx: nat, flag: nat)
    requires Pictured(s)
    ensures Pictured(AddCarImage(s, carIdx, flag))
    ensures forall other, name :: other != carIdx && ImageOf("car/", other, name) ==>
              (name in AddCarImage(s, carIdx, flag).files <==> name in s.files)
  {
    var added := ImageName("car/", carIdx, flag);
    assert ImageOf("car/", carIdx, added);
    forall other, name | other != carIdx && ImageOf("car/", other, name) ensures name != added {
      if name == added {
        ImagesApart("car/", other, carIdx, name);
      }
    }
    forall c | c in Map(s.t.cars, WithImage(carIdx, added)) && c.img.Some?
      ensures ImageOf("car/", c.carIdx, c.img.value)
    {
      MapMembers(s.t.cars, WithImage(carIdx, added), c);
    }
  }

  /** A removal takes every row of the listing's car but the ledger's, and its files; the rows
      and files of every other car stay, and all other tables are left alone. */
  lemma RemovalTakesCar(s: State, sellIdx: int)
    requires Pictured(s) && Unique(s.t.cars, CarKey)
    ensures var s', car := Remove(s, sellIdx), CarOf(s.t, sellIdx);
            && (forall o :: o in s'.owners <==> o in s.owners && car != Some(o.carIdx))
            && (forall i :: i in s'.carImgs <==> i in s.carImgs && car != Some(i.carIdx))
            && (forall c :: c in s'.t.cars <==> c in s.t.cars && car != Some(c.carIdx))
            && s'.replies == s.replies && s'.ledger == s.ledger && s'.partTrades == s.partTrades
            && s'.users == s.users && s'.refer == s.refer
            && s'.t == s.t.(listings := s'.t.listings, additional := s'.t.additional,
                            bookmarks := s'.t.bookmarks, cars := s'.t.cars)
    ensures forall i :: i in s.carImgs && CarOf(s.t, sellIdx) == Some(i.carIdx) ==> i.img !in Remove(s, sellIdx).files
    ensures forall c :: c in s.t.cars && CarOf(s.t, sellIdx) == Some(c.carIdx) && c.img.Some? ==>
              c.img.value !in Remove(s, sellIdx).files
    ensures forall carIdx, name :: CarOf(s.t, sellIdx) != Some(carIdx) && ImageOf("car/", carIdx, name) ==>
              (name in Remove(s, sellIdx).files <==> name in s.files)
    ensures Pictured(Remove(s, sellIdx))
  {
    if CarOf(s.t, sellIdx).Some? {
      var x := CarOf(s.t, sellIdx).value;
      var imgs, cars := Lookup(s.carImgs, ImgCar, Some(x)), Lookup(s.t.cars, CarKey, Some(x));
      assert cars == [] || cars[0] in cars;
      forall i | i in s.carImgs && i.carIdx == x ensures i.img in ImageNames(imgs) {
        assert i in imgs;
      }
      forall c | c in s.t.cars && c.carIdx == x ensures cars != [] && c == cars[0] {
        assert c in cars;
        SameRow(s.t.cars, CarKey, c, cars[0]);
      }
      forall carIdx, name | carIdx != x && ImageOf("car/", carIdx, name)
        ensures name !in ImageNames(imgs) && name !in FirstImage(s.t, x)
      {
        if name in ImageNames(imgs) + FirstImage(s.t, x) {
          assert ImageOf("car/", x, name);
          ImagesApart("car/", carIdx, x, name);
        }
      }
    }
  }

  // ----- the loop over the right result set -----

  /** The removal, had its loop read the comments' result set. */
  function RemoveRepaired(s: State, sellIdx: int): State {
    var found := Column(Lookup(s.comments, CommentSell, Some(sellIdx)), "sell_comment_idx", CommentKey);
    Remove(s.(replies := Unanswering(s.replies, Taken(found, 0, |found|))), sellIdx)
  }

  /** Were the loop to read the comments' result set instead, exactly the replies under the
      listing would go, all else would end as it does, and only sales and other users of the
      car could lose their reference. */
  lemma LoopOverCommentsIntact(s: State, sellIdx: int)
    requires RepliesAnswer(s) && Unique(s.comments, CommentKey)
    ensures RepliesAnswer(RemoveRepaired(s, sellIdx))
    ensures forall r :: r in RemoveRepaired(s, sellIdx).replies <==>
                        r in s.replies && !UnderListing(s, sellIdx, r.commentIdx)
    ensures RemoveRepaired(s, sellIdx) == Remove(s, sellIdx).(replies := RemoveRepaired(s, sellIdx).replies)
    ensures ListingsIntact(s) && CarsIntact(s) ==>
              (Intact(RemoveRepaired(s, sellIdx)) <==>
               && !Traded(s.t, sellIdx)
               && (CarOf(s.t, sellIdx).Some? ==> CarUnused(s, sellIdx, CarOf(s.t, sellIdx).value)))
  {
    var comments := Lookup(s.comments, CommentSell, Some(sellIdx));
    var found := Column(comments, "sell_comment_idx", CommentKey);
    var s' := s.(replies := Unanswering(s.replies, found));
    assert Taken(found, 0, |found|) == found;
    forall x ensures Mentions(found, "sell_comment_idx", x) <==> UnderListing(s, sellIdx, x) {
      ColumnMentions(comments, "sell_comment_idx", CommentKey, x);
    }
    assert forall x :: UnderListing(s', sellIdx, x) <==> UnderListing(s, sellIdx, x);
    CarDeletionReplies(s', sellIdx);
    if ListingsIntact(s) && CarsIntact(s) {
      CarDeletionIntact(s', sellIdx);
    }
  }

  // ----- car ids used again -----

  function LedgerOf(s: State, carIdx: int): seq<Noted> {
    Lookup(s.ledger, NotedCar, Some(carIdx))
  }

  /** A newly inserted car starts with an empty ledger exactly when no ledger row carries the
      id after the last, as is the case while references are intact. */
  lemma NewCarLedger(s: State, e: Enrolment)
    requires CarsWith(s.t, e.plnumber) == []
    ensures LedgerOf(Enrol(s, e), EnrolledCar(s.t, e)) == [] <==> !HasKey(s.ledger, NotedCar, NextId(s.t.cars, CarKey))
    ensures CarsIntact(s) ==> LedgerOf(Enrol(s, e), EnrolledCar(s.t, e)) == []
  {
    EmptyOrMember(LedgerOf(s, NextId(s.t.cars, CarKey)));
    forall c | c in s.t.cars ensures CarKey(c) != NextId(s.t.cars, CarKey) {
    }
  }

  /** Removing the listing of the newest car and enrolling an unknown plate hands the removed
      car's ledger to the new car, when the removed car's id comes next again. */
  lemma RemovedLedgerInherited(s: State, sellIdx: int, carIdx: int, e: Enrolment)
    requires CarOf(s.t, sellIdx) == Some(carIdx) && forall c :: c in s.t.cars ==> c.carIdx <= carIdx
    requires CarsWith(Remove(s, sellIdx).t, e.plnumber) == []
    ensures EnrolledCar(Remove(s, sellIdx).t, e) == carIdx <==>
            HasKey(s.t.cars, CarKey, carIdx - 1) || (carIdx == 1 && forall c :: c in s.t.cars ==> c.carIdx == 1)
    ensures LedgerOf(Enrol(Remove(s, sellIdx), e), carIdx) == LedgerOf(s, carIdx)
  {
    NextAfterDelete(s.t.cars, CarKey, carIdx);
  }

  // ----- an example -----

  const NO_ROWS := State(Tables([], [], [], [], [], [], [], [], [], []),
                         [], [], [], [], [], [], [], [], [], [], [], {})

  /** One listing with one comment and one reply. */
  function AnsweredListing(m: Listing, c: Car, comment: Comment, reply: Reply): State {
    NO_ROWS.(t := NO_ROWS.t.(listings := [m], cars := [c]), comments := [comment], replies := [reply])
  }

  /** Its removal leaves the reply without its comment. */
  lemma AnsweredListingRemoved(m: Listing, c: Car, comment: Comment, reply: Reply)
    requires m.carIdx == c.carIdx && comment.sellIdx == m.sellIdx && reply.commentIdx == comment.commentIdx
    ensures Intact(AnsweredListing(m, c, comment, reply))
    ensures !RepliesAnswer(Remove(AnsweredListing(m, c, comment, reply), m.sellIdx))
  {
    var s := AnsweredListing(m, c, comment, reply);
    assert m in s.t.listings && c in s.t.cars && comment in s.comments && reply in s.replies;
    assert UnderListing(s, m.sellIdx, comment.commentIdx);
    CarDeletionReplies(s, m.sellIdx);
  }
}
