/** A listing's comment list (setSellCommentList.php): the same flattening, with every
    thread sorted under its date rank read as text. */
module ListingComments {
  import opened Relational
  import opened Decimals
  import opened Mysqli
  import opened Threads

  /** sell_comment and sell_recomment; a comment's post is its listing. */
  datatype Tables = Tables(users: seq<User>, comments: seq<Comment>, replies: seq<Reply>)

  ghost predicate KeysUnique(t: Tables) {
    Unique(t.users, UserKey) && Unique(t.comments, CommentKey)
  }

  function Authors(t: Tables, listing: int): seq<Authored> {
    AuthoredOf(t.users, t.comments, listing)
  }

  function Ord(byDate: seq<Authored>, a: Authored): string {
    ['d'] + Decimal(RowNumber(byDate, a))
  }

  function FirstArm(byDate: seq<Authored>): Authored -> Row {
    (a: Authored) =>
      var c := a.comment;
      Row(c.commentIdx, a.id, c.userIdx, c.content, c.date, Some(c.post), 0, None, Ord(byDate, a))
  }

  function Anchor(t: Tables, listing: int, byDate: seq<Authored>): seq<Row> {
    Map(Authors(t, listing), FirstArm(byDate))
  }

  ghost predicate IsList(t: Tables, listing: int, byDate: seq<Authored>, out: seq<Row>) {
    && Arrangement(Authors(t, listing), byDate, Earlier())
    && Arrangement(Iterate(t.users, t.replies, listing, Anchor(t, listing, byDate)), out, RowLe)
  }

  method SetSellCommentList(t: Tables, listing: int) returns (arr: seq<Row>)
    ensures exists byDate :: IsList(t, listing, byDate, arr)
  {
    OrderByArranges(Authors(t, listing), Earlier());
    var byDate := OrderBy(Authors(t, listing), Earlier());
    RowLeTotal();
    var cte := Iterate(t.users, t.replies, listing, Anchor(t, listing, byDate));
    OrderByArranges(cte, RowLe);
    var result := new ResultSet(OrderBy(cte, RowLe));
    arr := FetchAll(result);
    assert IsList(t, listing, byDate, arr);
  }

  lemma OrdsDiffer(t: Tables, listing: int, byDate: seq<Authored>, a: Authored, b: Authored)
    requires Arrangement(Authors(t, listing), byDate, Earlier())
    requires a in Authors(t, listing) && b in Authors(t, listing)
    requires Ord(byDate, a) == Ord(byDate, b)
    ensures a == b
  {
    RankOf(Authors(t, listing), byDate, Earlier(), a);
    RankOf(Authors(t, listing), byDate, Earlier(), b);
    assert Ord(byDate, a)[1..] == Ord(byDate, b)[1..];
    DecimalInjective(RowNumber(byDate, a), RowNumber(byDate, b));
  }

  lemma AnchorKeyed(t: Tables, listing: int, byDate: seq<Authored>)
    requires KeysUnique(t) && Arrangement(Authors(t, listing), byDate, Earlier())
    ensures AnchorFor(Anchor(t, listing, byDate), Authors(t, listing), listing)
    ensures Unique(Anchor(t, listing, byDate), RowThread)
  {
    var authored, anchor := Authors(t, listing), Anchor(t, listing, byDate);
    AuthoredComments(t.users, t.comments, listing);
    forall i | 0 <= i < |anchor| ensures anchor[i].post == Some(listing) {
      AuthoredMembers(t.users, t.comments, listing, authored[i]);
    }
    forall i, j | 0 <= i < j < |anchor| ensures RowOrd(anchor[i]) != RowOrd(anchor[j]) {
      if RowOrd(anchor[i]) == RowOrd(anchor[j]) {
        OrdsDiffer(t, listing, byDate, authored[i], authored[j]);
      }
    }
    AnchorThreads(anchor, authored, listing);
  }

  /** The list shows every comment of the listing and every reply to one, each exactly once. */
  lemma ListComplete(t: Tables, listing: int, byDate: seq<Authored>, out: seq<Row>)
    requires KeysUnique(t) && AuthorsExist(t.users, t.comments, t.replies)
    requires IsList(t, listing, byDate, out)
    ensures multiset(Map(out, Shown)) ==
            multiset(Map(Filter(t.comments, OfPost(listing)), CommentEntry) +
                     Map(Filter(t.replies, ToPost(t.comments, listing)), ReplyEntry))
  {
    AnchorKeyed(t, listing, byDate);
    ListIsPermutation(t.users, t.comments, t.replies, listing, Anchor(t, listing, byDate), out);
  }

  /** Every row carries the id of the user who wrote it; a comment's row has the listing's id and
      no reply id; there are no like columns. */
  lemma ListColumns(t: Tables, listing: int, byDate: seq<Authored>, out: seq<Row>, row: Row)
    requires KeysUnique(t) && IsList(t, listing, byDate, out) && row in out
    ensures User(row.userIdx, row.id) in t.users && row.likes.None?
    ensures row.post.Some? ==> row.post == Some(listing) && row.replyIdx == 0
  {
    var anchor := Anchor(t, listing, byDate);
    AnchorKeyed(t, listing, byDate);
    ArrangementMembers(Iterate(t.users, t.replies, listing, anchor), out, RowLe);
    RowsSigned(t.users, t.comments, t.replies, listing, anchor, row);
    IterateIsJoin(t.users, t.replies, listing, anchor);
    if row in anchor {
      MapMembers(Authors(t, listing), FirstArm(byDate), row);
      var a :| a in Authors(t, listing) && FirstArm(byDate)(a) == row;
      AuthoredMembers(t.users, t.comments, listing, a);
    } else {
      ArmMembers(t.users, t.replies, listing, anchor, row);
    }
  }

  /** Threads are blocks, and a comment heads its block when its replies are later. */
  lemma ListInBlocks(t: Tables, listing: int, byDate: seq<Authored>, out: seq<Row>, head: Row)
    requires KeysUnique(t) && IsList(t, listing, byDate, out)
    requires head in out && head.post.Some?
    ensures Contiguous(out)
    ensures (forall row :: row in out && row.post.None? && row.commentIdx == head.commentIdx ==> head.date < row.date)
            ==> HeadsItsThread(out, head)
    ensures (exists row :: row in out && row.post.None? && row.commentIdx == head.commentIdx && row.date < head.date)
            ==> !HeadsItsThread(out, head)
  {
    var anchor := Anchor(t, listing, byDate);
    AnchorKeyed(t, listing, byDate);
    ThreadsContiguous(t.users, t.replies, listing, anchor, out);
    ArrangementMembers(Iterate(t.users, t.replies, listing, anchor), out, RowLe);
    var same := RowInThread(t.users, t.replies, listing, anchor, head);
    CommentHeadsThread(t.users, t.replies, listing, anchor, out, head);
  }

  lemma ThreadOf(t: Tables, listing: int, byDate: seq<Authored>, out: seq<Row>, row: Row) returns (a: Authored)
    requires KeysUnique(t) && IsList(t, listing, byDate, out) && row in out
    ensures a in Authors(t, listing)
    ensures a.comment.commentIdx == row.commentIdx && row.ord == Ord(byDate, a)
  {
    var anchor := Anchor(t, listing, byDate);
    AnchorKeyed(t, listing, byDate);
    ArrangementMembers(Iterate(t.users, t.replies, listing, anchor), out, RowLe);
    var head := RowInThread(t.users, t.replies, listing, anchor, row);
    MapMembers(Authors(t, listing), FirstArm(byDate), head);
    a :| a in Authors(t, listing) && FirstArm(byDate)(a) == head;
  }

  /** Threads follow one another in the order of the texts of their date ranks. */
  lemma ThreadsByRankText(t: Tables, listing: int, byDate: seq<Authored>, out: seq<Row>, i: nat, j: nat, a: Authored,
      b: Authored)
    requires KeysUnique(t) && IsList(t, listing, byDate, out)
    requires i < j < |out|
    requires a in byDate && a.comment.commentIdx == out[i].commentIdx
    requires b in byDate && b.comment.commentIdx == out[j].commentIdx
    ensures a == b || Before(Decimal(RowNumber(byDate, a)), Decimal(RowNumber(byDate, b)))
  {
    var x := ThreadOf(t, listing, byDate, out, out[i]);
    var y := ThreadOf(t, listing, byDate, out, out[j]);
    ArrangementMembers(Authors(t, listing), byDate, Earlier());
    AuthoredComments(t.users, t.comments, listing);
    SameRow(Authors(t, listing), AuthoredThread, a, x);
    SameRow(Authors(t, listing), AuthoredThread, b, y);
    assert RowLe(out[i], out[j]);
    BeforePrefixed('d', Decimal(RowNumber(byDate, a)), Decimal(RowNumber(byDate, b)));
    if out[i].ord == out[j].ord {
      OrdsDiffer(t, listing, byDate, a, b);
    }
  }

  /** Among threads whose date ranks have equally many digits the list is in date order. */
  lemma EqualDigitsByDate(t: Tables, listing: int, byDate: seq<Authored>, out: seq<Row>, i: nat, j: nat, a: Authored,
      b: Authored)
    requires KeysUnique(t) && IsList(t, listing, byDate, out)
    requires i < j < |out|
    requires a in byDate && a.comment.commentIdx == out[i].commentIdx
    requires b in byDate && b.comment.commentIdx == out[j].commentIdx
    requires |Decimal(RowNumber(byDate, a))| == |Decimal(RowNumber(byDate, b))|
    ensures a.comment.date <= b.comment.date
  {
    ThreadsByRankText(t, listing, byDate, out, i, j, a, b);
    var ra, rb := RowNumber(byDate, a), RowNumber(byDate, b);
    DecimalOrder(ra, rb);
    ArrangementMembers(Authors(t, listing), byDate, Earlier());
    RankOf(Authors(t, listing), byDate, Earlier(), a);
    RankOf(Authors(t, listing), byDate, Earlier(), b);
    assert ra < rb ==> Earlier()(byDate[ra - 1], byDate[rb - 1]);
  }

  /** The threads follow one another by the dates of their comments. */
  ghost predicate InDateOrder(byDate: seq<Authored>, out: seq<Row>) {
    forall i, j, a, b |
      0 <= i < j < |out| && a in byDate && b in byDate &&
      a.comment.commentIdx == out[i].commentIdx && b.comment.commentIdx == out[j].commentIdx
      :: a.comment.date <= b.comment.date
  }

  lemma DateOf(t: Tables, listing: int, byDate: seq<Authored>, j: nat, k: nat)
    requires Arrangement(Authors(t, listing), byDate, Earlier()) && j <= k < |byDate|
    ensures byDate[j].comment.date <= byDate[k].comment.date
  {
    assert j < k ==> Earlier()(byDate[j], byDate[k]);
  }

  /** Of two comments whose rank texts are swapped the later one's stands first. */
  lemma SwappedHeads(t: Tables, listing: int, byDate: seq<Authored>, out: seq<Row>, r: nat, s: nat)
    returns (i: nat, j: nat)
    requires KeysUnique(t) && IsList(t, listing, byDate, out)
    requires 1 <= r && s <= |byDate| && Swapped(r, s)
    ensures i < j < |out|
    ensures out[i].commentIdx == byDate[s-1].comment.commentIdx
    ensures out[j].commentIdx == byDate[r-1].comment.commentIdx
  {
    i := HeadPosition(t, listing, byDate, out, s - 1);
    j := HeadPosition(t, listing, byDate, out, r - 1);
    BeforeTotal(Decimal(s), Decimal(r));
    if j < i {
      ThreadsByRankText(t, listing, byDate, out, j, i, byDate[r-1], byDate[s-1]);
    }
    assert out[i].ord[1..] == Decimal(s) && out[j].ord[1..] == Decimal(r);
  }

  /** In a list in date order comments whose rank texts are swapped have one date. */
  lemma SwappedShareDate(t: Tables, listing: int, byDate: seq<Authored>, out: seq<Row>, r: nat, s: nat)
    requires KeysUnique(t) && IsList(t, listing, byDate, out) && InDateOrder(byDate, out)
    requires 1 <= r && s <= |byDate| && Swapped(r, s)
    ensures byDate[r-1].comment.date == byDate[s-1].comment.date
  {
    DateOf(t, listing, byDate, r - 1, s - 1);
    var i, j := SwappedHeads(t, listing, byDate, out, r, s);
  }

  /** The list is in date order exactly up to nine comments, and from ten on exactly when the
      second comment's date is also that of the last comment whose rank text is swapped. */
  lemma DateOrderExactly(t: Tables, listing: int, byDate: seq<Authored>, out: seq<Row>)
    requires KeysUnique(t) && IsList(t, listing, byDate, out)
    ensures InDateOrder(byDate, out) <==>
            |byDate| <= 9 || byDate[1].comment.date == byDate[LastSwapped(|byDate|) - 1].comment.date
  {
    if |byDate| <= 9 || byDate[1].comment.date == byDate[LastSwapped(|byDate|) - 1].comment.date {
      InOrderOnOneDate(t, listing, byDate, out);
    } else if InDateOrder(byDate, out) {
      SwappedShareDates(t, listing, byDate, out);
      OneDateInOrder(t, listing, byDate);
    }
  }

  lemma InOrderOnOneDate(t: Tables, listing: int, byDate: seq<Authored>, out: seq<Row>)
    requires KeysUnique(t) && IsList(t, listing, byDate, out)
    requires |byDate| <= 9 || byDate[1].comment.date == byDate[LastSwapped(|byDate|) - 1].comment.date
    ensures InDateOrder(byDate, out)
  {
    forall i, j, a, b | 0 <= i < j < |out| && a in byDate && b in byDate &&
      a.comment.commentIdx == out[i].commentIdx && b.comment.commentIdx == out[j].commentIdx
      ensures a.comment.date <= b.comment.date
    {
      ThreadsByRankText(t, listing, byDate, out, i, j, a, b);
      InOrderOrOneDate(t, listing, byDate, a, b);
    }
  }

  /** Comments whose rank texts are swapped have one date. */
  ghost predicate SwappedOnOneDate(byDate: seq<Authored>) {
    forall r: nat, s: nat | 1 <= r && s <= |byDate| && Swapped(r, s)
      :: byDate[r-1].comment.date == byDate[s-1].comment.date
  }

  lemma SwappedShareDates(t: Tables, listing: int, byDate: seq<Authored>, out: seq<Row>)
    requires KeysUnique(t) && IsList(t, listing, byDate, out) && InDateOrder(byDate, out)
    ensures SwappedOnOneDate(byDate)
  {
    forall r: nat, s: nat | 1 <= r && s <= |byDate| && Swapped(r, s)
      ensures byDate[r-1].comment.date == byDate[s-1].comment.date
    {
      SwappedShareDate(t, listing, byDate, out, r, s);
    }
  }

  lemma OneDateInOrder(t: Tables, listing: int, byDate: seq<Authored>)
    requires Arrangement(Authors(t, listing), byDate, Earlier()) && SwappedOnOneDate(byDate)
    requires |byDate| >= 10
    ensures byDate[1].comment.date == byDate[LastSwapped(|byDate|) - 1].comment.date
  {
    var p, q := SwappedReach(|byDate|);
    DateOf(t, listing, byDate, 1, q - 1);
    DateOf(t, listing, byDate, q - 1, p - 1);
  }

  /** Comments whose ranks are swapped stand between the second and the last swapped one. */
  lemma InOrderOrOneDate(t: Tables, listing: int, byDate: seq<Authored>, a: Authored, b: Authored)
    requires Arrangement(Authors(t, listing), byDate, Earlier()) && a in byDate && b in byDate
    requires |byDate| <= 9 || byDate[1].comment.date == byDate[LastSwapped(|byDate|) - 1].comment.date
    requires a == b || Before(Decimal(RowNumber(byDate, a)), Decimal(RowNumber(byDate, b)))
    ensures a.comment.date <= b.comment.date
  {
    ArrangementMembers(Authors(t, listing), byDate, Earlier());
    RankOf(Authors(t, listing), byDate, Earlier(), a);
    RankOf(Authors(t, listing), byDate, Earlier(), b);
    var ra, rb := RowNumber(byDate, a), RowNumber(byDate, b);
    if ra <= rb {
      DateOf(t, listing, byDate, ra - 1, rb - 1);
    } else if a != b {
      SwappedSpan(rb, ra, |byDate|);
      DateOf(t, listing, byDate, 1, rb - 1);
      DateOf(t, listing, byDate, ra - 1, LastSwapped(|byDate|) - 1);
    }
  }

  /** Where the comment of date rank k + 1 stands. */
  lemma HeadPosition(t: Tables, listing: int, byDate: seq<Authored>, out: seq<Row>, k: nat) returns (i: nat)
    requires KeysUnique(t) && IsList(t, listing, byDate, out) && k < |byDate|
    ensures i < |out| && out[i].commentIdx == byDate[k].comment.commentIdx
    ensures out[i].ord == Ord(byDate, byDate[k]) && RowNumber(byDate, byDate[k]) == k + 1
  {
    var a := byDate[k];
    var anchor := Anchor(t, listing, byDate);
    var all := Iterate(t.users, t.replies, listing, anchor);
    ArrangementMembers(Authors(t, listing), byDate, Earlier());
    ArrangementMembers(all, out, RowLe);
    var head := FirstArm(byDate)(a);
    MapMembers(Authors(t, listing), FirstArm(byDate), head);
    IterateIsJoin(t.users, t.replies, listing, anchor);
    assert head in anchor && head in all && head in out;
    i :| 0 <= i < |out| && out[i] == head;
    AuthoredComments(t.users, t.comments, listing);
    NoDuplicatesPermutes(Authors(t, listing), byDate);
    assert byDate[Position(byDate, a)] == a;
  }

  // ----- an example -----

  /** Listing 1 with n comments, each on its own date. */
  function Dated(n: nat): Tables {
    Tables([User(7, "kim")], seq(n, i => Comment(i, 7, "", i, 1)), [])
  }

  lemma DatedAuthors(n: nat)
    ensures KeysUnique(Dated(n)) && |Authors(Dated(n), 1)| == n
    ensures forall a :: a in Authors(Dated(n), 1) ==>
            a == Authored(Comment(a.comment.date, 7, "", a.comment.date, 1), "kim")
  {
    var t := Dated(n);
    AuthoredComments(t.users, t.comments, 1);
    FilterAll(t.comments, OfPost(1));
    forall c | c in t.comments ensures NonEmpty(WithAuthor(t.users))(c) {
      assert t.users[0] in Lookup(t.users, UserKey, Some(c.userIdx));
    }
    FilterAll(t.comments, NonEmpty(WithAuthor(t.users)));
    assert |Map(Authors(t, 1), AuthoredComment)| == |t.comments|;
    forall a | a in Authors(t, 1) ensures a.id == "kim" && a.comment in t.comments {
      AuthoredMembers(t.users, t.comments, 1, a);
    }
  }

  lemma DatedApart(n: nat, byDate: seq<Authored>, j: nat, k: nat)
    requires Arrangement(Authors(Dated(n), 1), byDate, Earlier()) && j < k < |byDate|
    ensures |byDate| == n && byDate[j].comment.date != byDate[k].comment.date
  {
    DatedAuthors(n);
    AuthoredComments(Dated(n).users, Dated(n).comments, 1);
    NoDuplicatesPermutes(Authors(Dated(n), 1), byDate);
    ArrangementMembers(Authors(Dated(n), 1), byDate, Earlier());
    assert byDate[j] in byDate && byDate[k] in byDate && byDate[j] != byDate[k];
  }

  /** From ten comments with different dates on, no list the script may return is in date order. */
  lemma DatedOutOfOrder(n: nat, byDate: seq<Authored>, out: seq<Row>)
    requires n >= 10 && IsList(Dated(n), 1, byDate, out)
    ensures !InDateOrder(byDate, out)
  {
    DatedAuthors(n);
    ArrangementMembers(Authors(Dated(n), 1), byDate, Earlier());
    DatedApart(n, byDate, 1, LastSwapped(n) - 1);
    DateOrderExactly(Dated(n), 1, byDate, out);
  }
}
