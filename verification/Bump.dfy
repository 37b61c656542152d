/** Bumping a listing (insLabel.php) against the order of search results (setResList.php). */
module Bump {
  import opened Relational
  import opened Market
  import opened Search

  /** The tables insLabel.php writes. */
  class Store {
    var listings: seq<Listing>
    var additional: seq<Additional>
    var updates: seq<Update>

    /** insLabel.php; idx "999" asks for a bump. */
    method InsLabel(sellIdx: int, idx: string, now: int)
      modifies this
      ensures idx != "999" ==>
        additional == old(additional) + (if Numeral(idx) then [Additional(sellIdx, Value(idx))] else []) &&
        listings == old(listings) && updates == old(updates)
      ensures idx == "999" ==> additional == old(additional)
      ensures idx == "999" && !HasUpdate(old(updates), sellIdx) ==>
        listings == old(listings) && updates == old(updates) + [Update(sellIdx, now)]
      ensures idx == "999" && HasUpdate(old(updates), sellIdx) ==>
        listings == Dated(old(listings), sellIdx, now) &&
        updates == Map(old(updates), Redated(sellIdx, now))
      ensures idx == "999" && HasUpdate(old(updates), sellIdx) ==>
        |listings| == |old(listings)| && |updates| == |old(updates)| &&
        (forall i :: 0 <= i < |listings| ==>
          var m := old(listings)[i];
          listings[i] == if m.sellIdx == sellIdx then m.(date := now) else m) &&
        (forall i :: 0 <= i < |updates| ==>
          updates[i] == if old(updates)[i].sellIdx == sellIdx then Update(sellIdx, now) else old(updates)[i])
    {
      if idx == "999" {
        var rows := Filter(updates, OfListing(sellIdx));
        EmptyOrMember(rows);
        if |rows| != 0 {
          updates := Map(updates, Redated(sellIdx, now));
          listings := Dated(listings, sellIdx, now);
        } else {
          updates := updates + [Update(sellIdx, now)];
        }
      } else if Numeral(idx) {
        additional := additional + [Additional(sellIdx, Value(idx))];
      }
    }
  }

  function OfListing(sellIdx: int): Update -> bool {
    (u: Update) => u.sellIdx == sellIdx
  }

  predicate HasUpdate(updates: seq<Update>, sellIdx: int) {
    exists u :: u in updates && u.sellIdx == sellIdx
  }

  function Redated(sellIdx: int, now: int): Update -> Update {
    (u: Update) => if u.sellIdx == sellIdx then u.(stdDate := now) else u
  }

  function Redate(sellIdx: int, now: int): Listing -> Listing {
    (m: Listing) => if m.sellIdx == sellIdx then m.(date := now) else m
  }

  /** `update car_market set date = now where sell_idx = sellIdx` */
  function Dated(listings: seq<Listing>, sellIdx: int, now: int): seq<Listing> {
    Map(listings, Redate(sellIdx, now))
  }

  function Bumped(t: Tables, sellIdx: int, now: int): Tables {
    t.(listings := Dated(t.listings, sellIdx, now))
  }

  // ----- the result's order -----

  /** The date of the listing with the given id. */
  function DateOf(t: Tables, sellIdx: int): int {
    var found := Lookup(t.listings, ListingKey, Some(sellIdx));
    if found == [] then 0 else found[0].date
  }

  /** a stands before b in every result. */
  function Ahead(t: Tables): (int, int) -> bool {
    (a: int, b: int) => Newer(Stamp(DateOf(t, a), a), Stamp(DateOf(t, b), b))
  }

  lemma DateOfListing(t: Tables, m: Listing)
    requires KeysUnique(t) && m in t.listings
    ensures DateOf(t, m.sellIdx) == m.date
  {
    LookupUnique(t.listings, ListingKey, Some(m.sellIdx));
    assert m in Lookup(t.listings, ListingKey, Some(m.sellIdx));
  }

  lemma ListedListing(t: Tables, f: Form, userIdx: int, r: ListRow)
    requires KeysUnique(t) && r in ListRows(t, f, userIdx)
    ensures r.row.listing in t.listings && DateOf(t, ListSell(r)) == ListStamp(r).date
  {
    ListedIsShown(t, f, userIdx, r);
    ShownMembers(t, f, r.row);
    DateOfListing(t, r.row.listing);
  }

  lemma StrictOrder(t: Tables, out: seq<ListRow>)
    requires forall r :: r in out ==> DateOf(t, ListSell(r)) == ListStamp(r).date
    requires Sorted(out, ListLe) && NoDuplicates(Sells(out))
    ensures Sorted(Sells(out), Ahead(t))
  {
    forall i, j | 0 <= i < j < |out| ensures Ahead(t)(Sells(out)[i], Sells(out)[j]) {
      assert ListLe(out[i], out[j]);
      assert Sells(out)[i] != Sells(out)[j];
      assert out[i] in out && out[j] in out;
    }
  }

  /** A result's listings exist and are in strict order: newest first, by descending id within a
      date. */
  lemma ResultOrder(t: Tables, f: Form, userIdx: int, out: seq<ListRow>)
    requires KeysUnique(t) && IsList(t, f, userIdx, out)
    ensures Sorted(Sells(out), Ahead(t)) && NewestFirst(out)
    ensures forall s :: s in Sells(out) ==> HasListing(t, s)
  {
    ListNewestFirst(t, f, userIdx, out);
    forall r | r in out
      ensures r.row.listing in t.listings && DateOf(t, ListSell(r)) == ListStamp(r).date
    {
      ListedListing(t, f, userIdx, r);
    }
    StrictOrder(t, out);
    forall s | s in Sells(out) ensures HasListing(t, s) {
      MapMembers(out, ListSell, s);
    }
  }

  // ----- the effect of a bump -----

  function RedateRow(sellIdx: int, now: int): Row -> Row {
    (row: Row) => row.(listing := Redate(sellIdx, now)(row.listing))
  }

  lemma BumpKeeps(t: Tables, sellIdx: int, now: int, other: int)
    requires KeysUnique(t)
    ensures KeysUnique(Bumped(t, sellIdx, now))
    ensures HasListing(t, other) ==>
            DateOf(Bumped(t, sellIdx, now), other) == if other == sellIdx then now else DateOf(t, other)
  {
    var after := Bumped(t, sellIdx, now);
    forall i, j | 0 <= i < j < |after.listings|
      ensures ListingKey(after.listings[i]) != ListingKey(after.listings[j])
    {
      assert ListingKey(t.listings[i]) != ListingKey(t.listings[j]);
    }
    if m :| m in t.listings && ListingKey(m) == other {
      MapMembers(t.listings, Redate(sellIdx, now), Redate(sellIdx, now)(m));
      DateOfListing(after, Redate(sellIdx, now)(m));
      DateOfListing(t, m);
    }
  }

  /** Neither the form nor the extra join looks at dates. */
  lemma DateNotFiltered(t: Tables, f: Form, row: Row, m: Listing)
    requires m == row.listing.(date := m.date)
    ensures Admits(f)(row.(listing := m)) == Admits(f)(row)
    ensures Displayed(t, f)(row.(listing := m)) == Displayed(t, f)(row)
  {
  }

  lemma BumpKeepsSale(t: Tables, sellIdx: int, now: int, row: Row)
    requires OnSale(t, row)
    ensures OnSale(Bumped(t, sellIdx, now), RedateRow(sellIdx, now)(row))
  {
    MapMembers(t.listings, Redate(sellIdx, now), Redate(sellIdx, now)(row.listing));
  }

  lemma UnbumpedSale(t: Tables, sellIdx: int, now: int, row': Row) returns (row: Row)
    requires OnSale(Bumped(t, sellIdx, now), row')
    ensures OnSale(t, row) && RedateRow(sellIdx, now)(row) == row'
  {
    MapMembers(t.listings, Redate(sellIdx, now), row'.listing);
    var m :| m in t.listings && Redate(sellIdx, now)(m) == row'.listing;
    row := row'.(listing := m);
  }

  /** Bumping changes which date a listing carries, not which listings a form shows. */
  lemma BumpShowsSame(t: Tables, f: Form, sellIdx: int, now: int, s: int)
    ensures Shows(t, f, s) <==> Shows(Bumped(t, sellIdx, now), f, s)
  {
    var after := Bumped(t, sellIdx, now);
    if Shows(t, f, s) {
      var row :| IsShown(t, f, row) && RowSell(row) == s;
      BumpKeepsSale(t, sellIdx, now, row);
      DateNotFiltered(t, f, row, Redate(sellIdx, now)(row.listing));
      assert IsShown(after, f, RedateRow(sellIdx, now)(row));
    }
    if Shows(after, f, s) {
      var row' :| IsShown(after, f, row') && RowSell(row') == s;
      var row := UnbumpedSale(t, sellIdx, now, row');
      DateNotFiltered(t, f, row, row'.listing);
      assert IsShown(t, f, row);
    }
  }

  lemma BumpReorders(t: Tables, sellIdx: int, now: int, ids: seq<int>, ids': seq<int>)
    requires KeysUnique(t)
    requires Sorted(ids, Ahead(t)) && Sorted(ids', Ahead(Bumped(t, sellIdx, now)))
    requires sellIdx in ids && forall s :: s in ids ==> HasListing(t, s)
    requires forall s :: s in ids <==> s in ids'
    requires forall s :: s in ids && s != sellIdx ==> Newer(Stamp(now, sellIdx), Stamp(DateOf(t, s), s))
    ensures ids' == [sellIdx] + Filter(ids, OtherThan(sellIdx))
  {
    var after := Bumped(t, sellIdx, now);
    forall s | s in ids
      ensures DateOf(after, s) == if s == sellIdx then now else DateOf(t, s)
    {
      BumpKeeps(t, sellIdx, now, s);
    }
    ToFront(ids, ids', sellIdx, Ahead(t), Ahead(after));
  }

  /** A bump later than every other listing of a result moves the listing to the front of
      it and leaves the order of the others alone. */
  lemma BumpMovesToFront(t: Tables, f: Form, userIdx: int, sellIdx: int, now: int, out: seq<ListRow>,
      out': seq<ListRow>)
    requires KeysUnique(t)
    requires IsList(t, f, userIdx, out) && IsList(Bumped(t, sellIdx, now), f, userIdx, out')
    requires sellIdx in Sells(out)
    requires forall r :: r in out && r.row.listing.sellIdx != sellIdx ==> LaterThan(now, sellIdx, r.row.listing)
    ensures Sells(out') == [sellIdx] + Filter(Sells(out), OtherThan(sellIdx))
    ensures out'[0].row.listing.date == now
  {
    var after := Bumped(t, sellIdx, now);
    ResultOrder(t, f, userIdx, out);
    BumpKeeps(t, sellIdx, now, sellIdx);
    ResultOrder(after, f, userIdx, out');
    forall s ensures s in Sells(out) <==> s in Sells(out') {
      SameListed(t, f, userIdx, sellIdx, now, out, out', s);
    }
    LaterStamps(t, f, userIdx, sellIdx, now, out);
    BumpReorders(t, sellIdx, now, Sells(out), Sells(out'));
    assert out'[0] in out' && ListSell(out'[0]) == Sells(out')[0];
    ListedListing(after, f, userIdx, out'[0]);
  }

  /** The time is after the listing's date, or on it with a larger id. */
  predicate LaterThan(now: int, sellIdx: int, m: Listing) {
    now > m.date || (now == m.date && sellIdx > m.sellIdx)
  }

  lemma LaterStamps(t: Tables, f: Form, userIdx: int, sellIdx: int, now: int, out: seq<ListRow>)
    requires KeysUnique(t) && IsList(t, f, userIdx, out)
    requires forall r :: r in out && r.row.listing.sellIdx != sellIdx ==> LaterThan(now, sellIdx, r.row.listing)
    ensures forall s :: s in Sells(out) && s != sellIdx ==> Newer(Stamp(now, sellIdx), Stamp(DateOf(t, s), s))
  {
    forall s | s in Sells(out) && s != sellIdx ensures Newer(Stamp(now, sellIdx), Stamp(DateOf(t, s), s)) {
      MapMembers(out, ListSell, s);
      var r :| r in out && ListSell(r) == s;
      ListedListing(t, f, userIdx, r);
    }
  }

  lemma SameListed(t: Tables, f: Form, userIdx: int, sellIdx: int, now: int, out: seq<ListRow>, out': seq<ListRow>,
      s: int)
    requires IsList(t, f, userIdx, out) && IsList(Bumped(t, sellIdx, now), f, userIdx, out')
    ensures s in Sells(out) <==> s in Sells(out')
  {
    ListShows(t, f, userIdx, out, s);
    ListShows(Bumped(t, sellIdx, now), f, userIdx, out', s);
    BumpShowsSame(t, f, sellIdx, now, s);
  }
}
