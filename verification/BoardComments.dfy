/** A board post's comment list (setCommentList.php): the three most-liked threads come
    first, the others follow in the order of their date ranks read as text. */
module BoardComments {
  import opened Relational
  import opened Decimals
  import opened Mysqli
  import opened Threads

  datatype CommentLike = CommentLike(userIdx: int, commentIdx: int)

  datatype Tables = Tables(users: seq<User>, comments: seq<Comment>, replies: seq<Reply>, cmtReco: seq<CommentLike>)

  ghost predicate KeysUnique(t: Tables) {
    Unique(t.users, UserKey) && Unique(t.comments, CommentKey)
  }

  function OfComment(commentIdx: int): CommentLike -> bool {
    (l: CommentLike) => l.commentIdx == commentIdx
  }

  function OfUser(userIdx: int): CommentLike -> bool {
    (l: CommentLike) => l.userIdx == userIdx
  }

  function LikeUser(l: CommentLike): int { l.userIdx }

  function LikeCount(t: Tables, commentIdx: int): nat {
    |Filter(t.cmtReco, OfComment(commentIdx))|
  }

  function OwnLikes(t: Tables, commentIdx: int, userIdx: int): nat {
    |Filter(t.cmtReco, And(OfComment(commentIdx), OfUser(userIdx)))|
  }

  /** The users who like the comment. */
  ghost function Likers(t: Tables, commentIdx: int): set<int> {
    set l | l in t.cmtReco && l.commentIdx == commentIdx :: l.userIdx
  }

  /** With one row for each like, the counts are of the users who like the comment, and of the
      viewer among them. */
  lemma LikesCounted(t: Tables, commentIdx: int, userIdx: int)
    requires NoDuplicates(t.cmtReco)
    ensures LikeCount(t, commentIdx) == |Likers(t, commentIdx)|
    ensures OwnLikes(t, commentIdx, userIdx) == if userIdx in Likers(t, commentIdx) then 1 else 0
  {
    var rows := Filter(t.cmtReco, OfComment(commentIdx));
    ImagesCounted(t.cmtReco, OfComment(commentIdx), LikeUser);
    assert Likers(t, commentIdx) == Relational.Images(rows, LikeUser);
    OwnCounted(t, commentIdx, userIdx);
  }

  lemma OwnCounted(t: Tables, commentIdx: int, userIdx: int)
    requires NoDuplicates(t.cmtReco)
    ensures OwnLikes(t, commentIdx, userIdx) == if CommentLike(userIdx, commentIdx) in t.cmtReco then 1 else 0
  {
    var l, own := CommentLike(userIdx, commentIdx), And(OfComment(commentIdx), OfUser(userIdx));
    assert Unique(t.cmtReco, Same<CommentLike>);
    LookupUnique(t.cmtReco, Same, Some(l));
    FilterAgree(t.cmtReco, own, Equals(Same, Some(l)));
    EmptyOrMember(Filter(t.cmtReco, own));
    assert l in t.cmtReco ==> l in Filter(t.cmtReco, own);
  }

  function Authors(t: Tables, post: int): seq<Authored> {
    AuthoredOf(t.users, t.comments, post)
  }

  /** `order by (select count(*) ...) desc` */
  function MoreLiked(t: Tables): (Authored, Authored) -> bool {
    (a: Authored, b: Authored) => LikeCount(t, a.comment.commentIdx) >= LikeCount(t, b.comment.commentIdx)
  }

  /** The sort key: 'b' and the like rank for the first three, 'd' and the date rank for
      the others. */
  function Ord(byLikes: seq<Authored>, byDate: seq<Authored>, a: Authored): string {
    if RowNumber(byLikes, a) <= 3
    then ['b'] + Decimal(RowNumber(byLikes, a))
    else ['d'] + Decimal(RowNumber(byDate, a))
  }

  function FirstArm(t: Tables, userIdx: int, byLikes: seq<Authored>, byDate: seq<Authored>): Authored -> Row {
    (a: Authored) =>
      var c := a.comment;
      Row(c.commentIdx, a.id, c.userIdx, c.content, c.date, Some(c.post), 0,
          Some(Likes(LikeCount(t, c.commentIdx), RowNumber(byLikes, a), OwnLikes(t, c.commentIdx, userIdx))),
          Ord(byLikes, byDate, a))
  }

  function Anchor(t: Tables, post: int, userIdx: int, byLikes: seq<Authored>, byDate: seq<Authored>): seq<Row> {
    Map(Authors(t, post), FirstArm(t, userIdx, byLikes, byDate))
  }

  /** The two window orders, with ties broken in any way. */
  ghost predicate Windows(t: Tables, post: int, byLikes: seq<Authored>, byDate: seq<Authored>) {
    && Arrangement(Authors(t, post), byLikes, MoreLiked(t))
    && Arrangement(Authors(t, post), byDate, Earlier())
  }

  /** `out` is an answer the server may give. */
  ghost predicate IsList(t: Tables, post: int, userIdx: int, byLikes: seq<Authored>, byDate: seq<Authored>,
      out: seq<Row>) {
    && Windows(t, post, byLikes, byDate)
    && Arrangement(Iterate(t.users, t.replies, post, Anchor(t, post, userIdx, byLikes, byDate)), out, RowLe)
  }

  method SetCommentList(t: Tables, post: int, userIdx: int) returns (arr: seq<Row>)
    ensures exists byLikes, byDate :: IsList(t, post, userIdx, byLikes, byDate, arr)
  {
    var authored := Authors(t, post);
    OrderByArranges(authored, MoreLiked(t));
    OrderByArranges(authored, Earlier());
    var byLikes, byDate := OrderBy(authored, MoreLiked(t)), OrderBy(authored, Earlier());
    RowLeTotal();
    var cte := Iterate(t.users, t.replies, post, Anchor(t, post, userIdx, byLikes, byDate));
    OrderByArranges(cte, RowLe);
    var result := new ResultSet(OrderBy(cte, RowLe));
    arr := FetchAll(result);
    assert IsList(t, post, userIdx, byLikes, byDate, arr);
  }

  // ----- sort keys tell threads apart -----

  lemma OrdsDiffer(t: Tables, post: int, byLikes: seq<Authored>, byDate: seq<Authored>, a: Authored, b: Authored)
    requires Windows(t, post, byLikes, byDate)
    requires a in Authors(t, post) && b in Authors(t, post) && a != b
    ensures Ord(byLikes, byDate, a) != Ord(byLikes, byDate, b)
  {
    RankOf(Authors(t, post), byLikes, MoreLiked(t), a);
    RankOf(Authors(t, post), byLikes, MoreLiked(t), b);
    RankOf(Authors(t, post), byDate, Earlier(), a);
    RankOf(Authors(t, post), byDate, Earlier(), b);
    var x, y := Ord(byLikes, byDate, a), Ord(byLikes, byDate, b);
    if x == y {
      assert x[1..] == y[1..];
      if x[0] == 'b' {
        DecimalInjective(RowNumber(byLikes, a), RowNumber(byLikes, b));
      } else {
        DecimalInjective(RowNumber(byDate, a), RowNumber(byDate, b));
      }
    }
  }

  lemma AnchorKeyed(t: Tables, post: int, userIdx: int, byLikes: seq<Authored>, byDate: seq<Authored>)
    requires KeysUnique(t) && Windows(t, post, byLikes, byDate)
    ensures AnchorFor(Anchor(t, post, userIdx, byLikes, byDate), Authors(t, post), post)
    ensures Unique(Anchor(t, post, userIdx, byLikes, byDate), RowThread)
  {
    var authored, anchor := Authors(t, post), Anchor(t, post, userIdx, byLikes, byDate);
    AuthoredComments(t.users, t.comments, post);
    forall i | 0 <= i < |anchor| ensures anchor[i].post == Some(post) {
      AuthoredMembers(t.users, t.comments, post, authored[i]);
    }
    forall i, j | 0 <= i < j < |anchor| ensures RowOrd(anchor[i]) != RowOrd(anchor[j]) {
      OrdsDiffer(t, post, byLikes, byDate, authored[i], authored[j]);
    }
    AnchorThreads(anchor, authored, post);
  }

  /** The list shows every comment of the post and every reply to one, each exactly once. */
  lemma ListComplete(t: Tables, post: int, userIdx: int, byLikes: seq<Authored>, byDate: seq<Authored>, out: seq<Row>)
    requires KeysUnique(t) && AuthorsExist(t.users, t.comments, t.replies)
    requires IsList(t, post, userIdx, byLikes, byDate, out)
    ensures multiset(Map(out, Shown)) ==
            multiset(Map(Filter(t.comments, OfPost(post)), CommentEntry) +
                     Map(Filter(t.replies, ToPost(t.comments, post)), ReplyEntry))
  {
    AnchorKeyed(t, post, userIdx, byLikes, byDate);
    ListIsPermutation(t.users, t.comments, t.replies, post, Anchor(t, post, userIdx, byLikes, byDate), out);
  }

  /** A reply has no like columns; a comment's row comes from the first arm. */
  lemma RowSource(t: Tables, post: int, userIdx: int, byLikes: seq<Authored>, byDate: seq<Authored>, row: Row)
    requires KeysUnique(t) && Windows(t, post, byLikes, byDate)
    requires row in Iterate(t.users, t.replies, post, Anchor(t, post, userIdx, byLikes, byDate))
    ensures row.post.None? ==> row.likes.None?
    ensures row.post.Some? ==> exists a :: a in Authors(t, post) && FirstArm(t, userIdx, byLikes, byDate)(a) == row
  {
    var anchor := Anchor(t, post, userIdx, byLikes, byDate);
    IterateIsJoin(t.users, t.replies, post, anchor);
    if row in anchor {
      AnchorKeyed(t, post, userIdx, byLikes, byDate);
      MapMembers(Authors(t, post), FirstArm(t, userIdx, byLikes, byDate), row);
    } else {
      ArmMembers(t.users, t.replies, post, anchor, row);
    }
  }

  /** Every row carries its author's id. */
  lemma ListSigned(t: Tables, post: int, userIdx: int, byLikes: seq<Authored>, byDate: seq<Authored>, out: seq<Row>,
      row: Row)
    requires KeysUnique(t)
    requires IsList(t, post, userIdx, byLikes, byDate, out) && row in out
    ensures User(row.userIdx, row.id) in t.users
  {
    var anchor := Anchor(t, post, userIdx, byLikes, byDate);
    AnchorKeyed(t, post, userIdx, byLikes, byDate);
    ArrangementMembers(Iterate(t.users, t.replies, post, anchor), out, RowLe);
    RowsSigned(t.users, t.comments, t.replies, post, anchor, row);
  }

  /** A comment's like columns: how many likes it has, how many of them are the viewer's, and
      its place among the post's comments by likes.  Replies have none. */
  lemma ListColumns(t: Tables, post: int, userIdx: int, byLikes: seq<Authored>, byDate: seq<Authored>, out: seq<Row>,
      row: Row)
    requires KeysUnique(t)
    requires IsList(t, post, userIdx, byLikes, byDate, out) && row in out
    ensures row.likes.Some? <==> row.post.Some?
    ensures row.likes.Some? ==>
              var l := row.likes.value;
              && l.reco == LikeCount(t, row.commentIdx) && l.state == OwnLikes(t, row.commentIdx, userIdx)
              && 1 <= l.ranking <= |byLikes| && byLikes[l.ranking - 1].comment.commentIdx == row.commentIdx
              && (l.ranking <= 3 <==> InTop(byLikes, row))
    ensures row.post.Some? ==> row.post == Some(post) && row.replyIdx == 0
    ensures row.likes.Some? && NoDuplicates(t.cmtReco) ==>
              && row.likes.value.reco == |Likers(t, row.commentIdx)|
              && row.likes.value.state == if userIdx in Likers(t, row.commentIdx) then 1 else 0
  {
    ListedRow(t, post, userIdx, byLikes, byDate, out, row);
    RowColumns(t, post, userIdx, byLikes, byDate, row);
    if NoDuplicates(t.cmtReco) {
      LikesCounted(t, row.commentIdx, userIdx);
    }
  }

  lemma RowColumns(t: Tables, post: int, userIdx: int, byLikes: seq<Authored>, byDate: seq<Authored>, row: Row)
    requires KeysUnique(t) && Windows(t, post, byLikes, byDate)
    requires row in Iterate(t.users, t.replies, post, Anchor(t, post, userIdx, byLikes, byDate))
    ensures row.likes.Some? <==> row.post.Some?
    ensures row.likes.Some? ==>
              var l := row.likes.value;
              && l.reco == LikeCount(t, row.commentIdx) && l.state == OwnLikes(t, row.commentIdx, userIdx)
              && 1 <= l.ranking <= |byLikes| && byLikes[l.ranking - 1].comment.commentIdx == row.commentIdx
              && (l.ranking <= 3 <==> InTop(byLikes, row))
    ensures row.post.Some? ==> row.post == Some(post) && row.replyIdx == 0
  {
    RowSource(t, post, userIdx, byLikes, byDate, row);
    if row.post.Some? {
      var a :| a in Authors(t, post) && FirstArm(t, userIdx, byLikes, byDate)(a) == row;
      HeadColumns(t, post, userIdx, byLikes, byDate, a, row);
      AuthoredMembers(t.users, t.comments, post, a);
    }
  }

  lemma ListedRow(t: Tables, post: int, userIdx: int, byLikes: seq<Authored>, byDate: seq<Authored>, out: seq<Row>,
      row: Row)
    requires IsList(t, post, userIdx, byLikes, byDate, out) && row in out
    ensures row in Iterate(t.users, t.replies, post, Anchor(t, post, userIdx, byLikes, byDate))
  {
    ArrangementMembers(Iterate(t.users, t.replies, post, Anchor(t, post, userIdx, byLikes, byDate)), out, RowLe);
  }

  lemma HeadColumns(t: Tables, post: int, userIdx: int, byLikes: seq<Authored>, byDate: seq<Authored>, a: Authored,
      row: Row)
    requires KeysUnique(t) && Windows(t, post, byLikes, byDate) && a in Authors(t, post)
    requires FirstArm(t, userIdx, byLikes, byDate)(a) == row
    ensures row.likes.Some?
    ensures var l := row.likes.value;
            && l.reco == LikeCount(t, row.commentIdx) && l.state == OwnLikes(t, row.commentIdx, userIdx)
            && 1 <= l.ranking <= |byLikes| && byLikes[l.ranking - 1].comment.commentIdx == row.commentIdx
            && (l.ranking <= 3 <==> InTop(byLikes, row))
    ensures row.post == Some(a.comment.post) && row.replyIdx == 0
  {
    RankOf(Authors(t, post), byLikes, MoreLiked(t), a);
    InTopIsRank(t, post, byLikes, byDate, a, row);
  }

  /** Threads are blocks, and a comment heads its block when its replies are later. */
  lemma ListInBlocks(t: Tables, post: int, userIdx: int, byLikes: seq<Authored>, byDate: seq<Authored>,
      out: seq<Row>, head: Row)
    requires KeysUnique(t)
    requires IsList(t, post, userIdx, byLikes, byDate, out)
    requires head in out && head.post.Some?
    ensures Contiguous(out)
    ensures (forall row :: row in out && row.post.None? && row.commentIdx == head.commentIdx ==> head.date < row.date)
            ==> HeadsItsThread(out, head)
    ensures (exists row :: row in out && row.post.None? && row.commentIdx == head.commentIdx && row.date < head.date)
            ==> !HeadsItsThread(out, head)
  {
    var anchor := Anchor(t, post, userIdx, byLikes, byDate);
    AnchorKeyed(t, post, userIdx, byLikes, byDate);
    ThreadsContiguous(t.users, t.replies, post, anchor, out);
    ArrangementMembers(Iterate(t.users, t.replies, post, anchor), out, RowLe);
    var same := RowInThread(t.users, t.replies, post, anchor, head);
    CommentHeadsThread(t.users, t.replies, post, anchor, out, head);
  }

  /** The thread a listed row belongs to. */
  lemma ThreadOf(t: Tables, post: int, userIdx: int, byLikes: seq<Authored>, byDate: seq<Authored>, out: seq<Row>,
      row: Row)
    returns (a: Authored)
    requires KeysUnique(t)
    requires IsList(t, post, userIdx, byLikes, byDate, out) && row in out
    ensures a in Authors(t, post) && a in byLikes && a in byDate
    ensures a.comment.commentIdx == row.commentIdx && row.ord == Ord(byLikes, byDate, a)
    ensures 1 <= RowNumber(byLikes, a) <= |byLikes| && byLikes[RowNumber(byLikes, a) - 1] == a
    ensures 1 <= RowNumber(byDate, a) <= |byDate| && byDate[RowNumber(byDate, a) - 1] == a
  {
    var anchor := Anchor(t, post, userIdx, byLikes, byDate);
    AnchorKeyed(t, post, userIdx, byLikes, byDate);
    ArrangementMembers(Iterate(t.users, t.replies, post, anchor), out, RowLe);
    var head := RowInThread(t.users, t.replies, post, anchor, row);
    MapMembers(Authors(t, post), FirstArm(t, userIdx, byLikes, byDate), head);
    a :| a in Authors(t, post) && FirstArm(t, userIdx, byLikes, byDate)(a) == head;
    RankOf(Authors(t, post), byLikes, MoreLiked(t), a);
    RankOf(Authors(t, post), byDate, Earlier(), a);
  }

  /** The row belongs to one of the (up to) three threads the like window ranks first. */
  ghost predicate InTop(byLikes: seq<Authored>, row: Row) {
    exists k :: 0 <= k < |byLikes| && k < 3 && byLikes[k].comment.commentIdx == row.commentIdx
  }

  lemma InTopIsRank(t: Tables, post: int, byLikes: seq<Authored>, byDate: seq<Authored>, a: Authored, row: Row)
    requires KeysUnique(t) && Windows(t, post, byLikes, byDate)
    requires a in Authors(t, post) && a.comment.commentIdx == row.commentIdx
    ensures InTop(byLikes, row) <==> RowNumber(byLikes, a) <= 3
  {
    RankOf(Authors(t, post), byLikes, MoreLiked(t), a);
    ArrangementMembers(Authors(t, post), byLikes, MoreLiked(t));
    AuthoredComments(t.users, t.comments, post);
    if k :| 0 <= k < |byLikes| && k < 3 && byLikes[k].comment.commentIdx == row.commentIdx {
      assert byLikes[k] in byLikes;
      SameRow(Authors(t, post), AuthoredThread, byLikes[k], a);
      assert !(k < Position(byLikes, a));
    }
  }

  /** The (up to) three most-liked threads come first, in non-increasing like order. */
  lemma TopThreadsFirst(t: Tables, post: int, userIdx: int, byLikes: seq<Authored>, byDate: seq<Authored>,
      out: seq<Row>, i: nat, j: nat)
    requires KeysUnique(t)
    requires IsList(t, post, userIdx, byLikes, byDate, out)
    requires i < j < |out|
    ensures InTop(byLikes, out[j]) ==> InTop(byLikes, out[i])
    ensures InTop(byLikes, out[i]) ==> LikeCount(t, out[i].commentIdx) >= LikeCount(t, out[j].commentIdx)
    ensures InTop(byLikes, out[i]) && NoDuplicates(t.cmtReco) ==>
              |Likers(t, out[i].commentIdx)| >= |Likers(t, out[j].commentIdx)|
  {
    if NoDuplicates(t.cmtReco) {
      LikesCounted(t, out[i].commentIdx, userIdx);
      LikesCounted(t, out[j].commentIdx, userIdx);
    }
    var a := ThreadOf(t, post, userIdx, byLikes, byDate, out, out[i]);
    var b := ThreadOf(t, post, userIdx, byLikes, byDate, out, out[j]);
    InTopIsRank(t, post, byLikes, byDate, a, out[i]);
    InTopIsRank(t, post, byLikes, byDate, b, out[j]);
    assert RowLe(out[i], out[j]);
    var ra, rb := RowNumber(byLikes, a), RowNumber(byLikes, b);
    if ra <= 3 && rb <= 3 {
      OneDigit(ra);
      OneDigit(rb);
      BeforePrefixed('b', Decimal(ra), Decimal(rb));
      DecimalOrder(ra, rb);
      if out[i].ord == out[j].ord {
        OrdsSame(t, post, byLikes, byDate, a, b);
      }
    }
    assert ra < rb ==> MoreLiked(t)(byLikes[ra - 1], byLikes[rb - 1]);
  }

  lemma OrdsSame(t: Tables, post: int, byLikes: seq<Authored>, byDate: seq<Authored>, a: Authored, b: Authored)
    requires Windows(t, post, byLikes, byDate)
    requires a in Authors(t, post) && b in Authors(t, post)
    requires Ord(byLikes, byDate, a) == Ord(byLikes, byDate, b)
    ensures a == b
  {
    if a != b {
      OrdsDiffer(t, post, byLikes, byDate, a, b);
    }
  }

  /** The remaining threads follow one another in the order of the texts of their date ranks. */
  lemma OthersByRankText(t: Tables, post: int, userIdx: int, byLikes: seq<Authored>, byDate: seq<Authored>,
      out: seq<Row>, i: nat, j: nat, a: Authored, b: Authored)
    requires KeysUnique(t)
    requires IsList(t, post, userIdx, byLikes, byDate, out)
    requires i < j < |out| && !InTop(byLikes, out[i]) && !InTop(byLikes, out[j])
    requires a in byDate && a.comment.commentIdx == out[i].commentIdx
    requires b in byDate && b.comment.commentIdx == out[j].commentIdx
    ensures RowNumber(byLikes, a) > 3 && RowNumber(byLikes, b) > 3
    ensures a == b || Before(Decimal(RowNumber(byDate, a)), Decimal(RowNumber(byDate, b)))
  {
    var x := ThreadOf(t, post, userIdx, byLikes, byDate, out, out[i]);
    var y := ThreadOf(t, post, userIdx, byLikes, byDate, out, out[j]);
    ArrangementMembers(Authors(t, post), byDate, Earlier());
    AuthoredComments(t.users, t.comments, post);
    SameRow(Authors(t, post), AuthoredThread, a, x);
    SameRow(Authors(t, post), AuthoredThread, b, y);
    InTopIsRank(t, post, byLikes, byDate, a, out[i]);
    InTopIsRank(t, post, byLikes, byDate, b, out[j]);
    assert RowLe(out[i], out[j]);
    BeforePrefixed('d', Decimal(RowNumber(byDate, a)), Decimal(RowNumber(byDate, b)));
    if out[i].ord == out[j].ord {
      OrdsSame(t, post, byLikes, byDate, a, b);
    }
  }

  /** The remaining threads are in date order among those whose date ranks have equally many
      digits, so all of them are when the post has at most nine comments. */
  lemma OtherThreadsByDate(t: Tables, post: int, userIdx: int, byLikes: seq<Authored>, byDate: seq<Authored>,
      out: seq<Row>, i: nat, j: nat, a: Authored, b: Authored)
    requires KeysUnique(t)
    requires IsList(t, post, userIdx, byLikes, byDate, out)
    requires i < j < |out| && !InTop(byLikes, out[i]) && !InTop(byLikes, out[j])
    requires a in byDate && a.comment.commentIdx == out[i].commentIdx
    requires b in byDate && b.comment.commentIdx == out[j].commentIdx
    requires |Decimal(RowNumber(byDate, a))| == |Decimal(RowNumber(byDate, b))| || |byDate| <= 9
    ensures a.comment.date <= b.comment.date
  {
    OthersByRankText(t, post, userIdx, byLikes, byDate, out, i, j, a, b);
    ArrangementMembers(Authors(t, post), byDate, Earlier());
    RankOf(Authors(t, post), byDate, Earlier(), a);
    RankOf(Authors(t, post), byDate, Earlier(), b);
    var ra, rb := RowNumber(byDate, a), RowNumber(byDate, b);
    OneDigit(ra);
    OneDigit(rb);
    DecimalOrder(ra, rb);
    assert ra < rb ==> Earlier()(byDate[ra - 1], byDate[rb - 1]);
  }

  /** The remaining threads follow one another by the dates of their comments. */
  ghost predicate OthersInDateOrder(byLikes: seq<Authored>, byDate: seq<Authored>, out: seq<Row>) {
    forall i, j, a, b |
      0 <= i < j < |out| && !InTop(byLikes, out[i]) && !InTop(byLikes, out[j]) && a in byDate && b in byDate &&
      a.comment.commentIdx == out[i].commentIdx && b.comment.commentIdx == out[j].commentIdx
      :: a.comment.date <= b.comment.date
  }

  /** Any two comments outside the top three whose date ranks' texts are swapped have one date. */
  ghost predicate SwappedOnOneDate(byLikes: seq<Authored>, byDate: seq<Authored>) {
    forall a, b | a in byDate && b in byDate && RowNumber(byLikes, a) > 3 && RowNumber(byLikes, b) > 3 &&
      Swapped(RowNumber(byDate, a), RowNumber(byDate, b))
      :: a.comment.date == b.comment.date
  }

  /** Where a comment stands. */
  lemma HeadPosition(t: Tables, post: int, userIdx: int, byLikes: seq<Authored>, byDate: seq<Authored>,
      out: seq<Row>, a: Authored)
    returns (i: nat)
    requires IsList(t, post, userIdx, byLikes, byDate, out) && a in byDate
    ensures a in Authors(t, post)
    ensures i < |out| && out[i].commentIdx == a.comment.commentIdx && out[i].ord == Ord(byLikes, byDate, a)
  {
    var anchor := Anchor(t, post, userIdx, byLikes, byDate);
    var all := Iterate(t.users, t.replies, post, anchor);
    ArrangementMembers(Authors(t, post), byDate, Earlier());
    ArrangementMembers(all, out, RowLe);
    var head := FirstArm(t, userIdx, byLikes, byDate)(a);
    MapMembers(Authors(t, post), FirstArm(t, userIdx, byLikes, byDate), head);
    IterateIsJoin(t.users, t.replies, post, anchor);
    assert head in anchor && head in all;
    i :| 0 <= i < |out| && out[i] == head;
  }

  /** Of two comments outside the top three whose rank texts are swapped the later stands first. */
  lemma SwappedHeads(t: Tables, post: int, userIdx: int, byLikes: seq<Authored>, byDate: seq<Authored>,
      out: seq<Row>, a: Authored, b: Authored)
    returns (i: nat, j: nat)
    requires KeysUnique(t) && IsList(t, post, userIdx, byLikes, byDate, out)
    requires a in byDate && b in byDate && RowNumber(byLikes, a) > 3 && RowNumber(byLikes, b) > 3
    requires Swapped(RowNumber(byDate, a), RowNumber(byDate, b))
    ensures i < j < |out| && !InTop(byLikes, out[i]) && !InTop(byLikes, out[j])
    ensures out[i].commentIdx == b.comment.commentIdx && out[j].commentIdx == a.comment.commentIdx
  {
    i := HeadPosition(t, post, userIdx, byLikes, byDate, out, b);
    j := HeadPosition(t, post, userIdx, byLikes, byDate, out, a);
    InTopIsRank(t, post, byLikes, byDate, b, out[i]);
    InTopIsRank(t, post, byLikes, byDate, a, out[j]);
    BeforeTotal(Decimal(RowNumber(byDate, b)), Decimal(RowNumber(byDate, a)));
    if j < i {
      OthersByRankText(t, post, userIdx, byLikes, byDate, out, j, i, a, b);
    }
    assert out[i].ord[1..] == Decimal(RowNumber(byDate, b)) && out[j].ord[1..] == Decimal(RowNumber(byDate, a));
  }

  /** The remaining threads are in date order exactly when those whose rank texts are swapped
      have one date. */
  lemma OthersInDateOrderExactly(t: Tables, post: int, userIdx: int, byLikes: seq<Authored>, byDate: seq<Authored>,
      out: seq<Row>)
    requires KeysUnique(t) && IsList(t, post, userIdx, byLikes, byDate, out)
    ensures OthersInDateOrder(byLikes, byDate, out) <==> SwappedOnOneDate(byLikes, byDate)
  {
    if SwappedOnOneDate(byLikes, byDate) {
      forall i, j, a, b | 0 <= i < j < |out| && !InTop(byLikes, out[i]) && !InTop(byLikes, out[j]) &&
        a in byDate && b in byDate &&
        a.comment.commentIdx == out[i].commentIdx && b.comment.commentIdx == out[j].commentIdx
        ensures a.comment.date <= b.comment.date
      {
        OthersByRankText(t, post, userIdx, byLikes, byDate, out, i, j, a, b);
        RankedByDate(t, post, byDate, a, b);
      }
    }
    if OthersInDateOrder(byLikes, byDate, out) {
      forall a, b | a in byDate && b in byDate && RowNumber(byLikes, a) > 3 && RowNumber(byLikes, b) > 3 &&
        Swapped(RowNumber(byDate, a), RowNumber(byDate, b))
        ensures a.comment.date == b.comment.date
      {
        var i, j := SwappedHeads(t, post, userIdx, byLikes, byDate, out, a, b);
        RankedByDate(t, post, byDate, a, b);
      }
    }
  }

  /** The date window ranks by date. */
  lemma RankedByDate(t: Tables, post: int, byDate: seq<Authored>, a: Authored, b: Authored)
    requires Arrangement(Authors(t, post), byDate, Earlier()) && a in byDate && b in byDate
    ensures RowNumber(byDate, a) < RowNumber(byDate, b) ==> a.comment.date <= b.comment.date
    ensures RowNumber(byDate, a) == RowNumber(byDate, b) ==> a == b
    ensures a == b || RowNumber(byDate, a) < RowNumber(byDate, b) || RowNumber(byDate, b) < RowNumber(byDate, a)
  {
    ArrangementMembers(Authors(t, post), byDate, Earlier());
    RankOf(Authors(t, post), byDate, Earlier(), a);
    RankOf(Authors(t, post), byDate, Earlier(), b);
    var ra, rb := RowNumber(byDate, a), RowNumber(byDate, b);
    assert ra < rb ==> Earlier()(byDate[ra - 1], byDate[rb - 1]);
  }

  // ----- the same in closed form -----

  /** The like rank of the comment of date rank r. */
  function LikeRank(byLikes: seq<Authored>, byDate: seq<Authored>, r: nat): nat
    requires 1 <= r <= |byDate|
  {
    RowNumber(byLikes, byDate[r-1])
  }

  /** The comment of date rank r is not in the top three. */
  predicate Other(byLikes: seq<Authored>, byDate: seq<Authored>, r: nat) {
    1 <= r <= |byDate| && LikeRank(byLikes, byDate, r) > 3
  }

  /** The lowest rank from two on outside the top three. */
  ghost predicate LowestOther(byLikes: seq<Authored>, byDate: seq<Authored>, a: nat) {
    2 <= a && Other(byLikes, byDate, a) && forall r: nat :: 2 <= r < a ==> !Other(byLikes, byDate, r)
  }

  ghost predicate SwappedOther(byLikes: seq<Authored>, byDate: seq<Authored>, s: nat) {
    Other(byLikes, byDate, s) && exists r: nat :: Other(byLikes, byDate, r) && Swapped(r, s)
  }

  /** The highest rank outside the top three that is swapped with another such rank. */
  ghost predicate HighestSwapped(byLikes: seq<Authored>, byDate: seq<Authored>, m: nat) {
    SwappedOther(byLikes, byDate, m) && forall s: nat :: SwappedOther(byLikes, byDate, s) ==> s <= m
  }

  lemma RankAt(t: Tables, post: int, byDate: seq<Authored>, r: nat)
    requires KeysUnique(t) && Arrangement(Authors(t, post), byDate, Earlier()) && 1 <= r <= |byDate|
    ensures RowNumber(byDate, byDate[r-1]) == r && byDate[r-1] in byDate && byDate[r-1] in Authors(t, post)
  {
    AuthoredComments(t.users, t.comments, post);
    NoDuplicatesPermutes(Authors(t, post), byDate);
    ArrangementMembers(Authors(t, post), byDate, Earlier());
    assert byDate[Position(byDate, byDate[r-1])] == byDate[r-1];
  }

  lemma LikeRanksDiffer(t: Tables, post: int, byLikes: seq<Authored>, byDate: seq<Authored>, j: nat, k: nat)
    requires KeysUnique(t) && Windows(t, post, byLikes, byDate) && 1 <= j < k <= |byDate|
    ensures LikeRank(byLikes, byDate, j) >= 1 && LikeRank(byLikes, byDate, k) >= 1
    ensures LikeRank(byLikes, byDate, j) != LikeRank(byLikes, byDate, k)
  {
    RankAt(t, post, byDate, j);
    RankAt(t, post, byDate, k);
    RankOf(Authors(t, post), byLikes, MoreLiked(t), byDate[j-1]);
    RankOf(Authors(t, post), byLikes, MoreLiked(t), byDate[k-1]);
  }

  predicate RanksDiffer(x: nat, y: nat) {
    x >= 1 && y >= 1 && x != y
  }

  /** Comments of different date ranks have different like ranks. */
  ghost predicate Ranked(byLikes: seq<Authored>, byDate: seq<Authored>) {
    forall j: nat, k: nat | 1 <= j < k <= |byDate|
      :: RanksDiffer(LikeRank(byLikes, byDate, j), LikeRank(byLikes, byDate, k))
  }

  lemma WindowsRanked(t: Tables, post: int, byLikes: seq<Authored>, byDate: seq<Authored>)
    requires KeysUnique(t) && Windows(t, post, byLikes, byDate)
    ensures Ranked(byLikes, byDate)
  {
    forall j: nat, k: nat | 1 <= j < k <= |byDate|
      ensures RanksDiffer(LikeRank(byLikes, byDate, j), LikeRank(byLikes, byDate, k))
    {
      LikeRanksDiffer(t, post, byLikes, byDate, j, k);
    }
  }

  lemma OneAboveThree(w: nat, x: nat, y: nat, z: nat)
    requires RanksDiffer(w, x) && RanksDiffer(w, y) && RanksDiffer(w, z)
    requires RanksDiffer(x, y) && RanksDiffer(x, z) && RanksDiffer(y, z)
    ensures w > 3 || x > 3 || y > 3 || z > 3
  {
  }

  /** Of four ranks one is outside the top three. */
  lemma OneOfFour(byLikes: seq<Authored>, byDate: seq<Authored>, r: nat) returns (q: nat)
    requires Ranked(byLikes, byDate) && 1 <= r && r + 3 <= |byDate|
    ensures r <= q <= r + 3 && Other(byLikes, byDate, q)
  {
    var w, x := LikeRank(byLikes, byDate, r), LikeRank(byLikes, byDate, r + 1);
    var y, z := LikeRank(byLikes, byDate, r + 2), LikeRank(byLikes, byDate, r + 3);
    OneAboveThree(w, x, y, z);
    q := if w > 3 then r else if x > 3 then r + 1 else if y > 3 then r + 2 else r + 3;
  }

  lemma DateOf(t: Tables, post: int, byDate: seq<Authored>, j: nat, k: nat)
    requires Arrangement(Authors(t, post), byDate, Earlier()) && 1 <= j <= k <= |byDate|
    ensures byDate[j-1].comment.date <= byDate[k-1].comment.date
  {
    assert j < k ==> Earlier()(byDate[j-1], byDate[k-1]);
  }

  /** Swapped ranks outside the top three reach the lowest one, through a rank that begins with
      one. */
  lemma LowestReached(t: Tables, post: int, byLikes: seq<Authored>, byDate: seq<Authored>, a: nat, r: nat, m: nat)
    returns (q: nat)
    requires KeysUnique(t) && Windows(t, post, byLikes, byDate)
    requires LowestOther(byLikes, byDate, a) && Other(byLikes, byDate, m) && 2 <= r && Swapped(r, m)
    ensures r < q <= m && Other(byLikes, byDate, q) && a <= 5 && (a <= r ==> Swapped(a, q))
  {
    SwappedDigits(r, m);
    var k := |Decimal(r)|;
    var p := Pow10(k);
    assert p == 10 * Pow10(k - 1) && p >= 10;
    WindowsRanked(t, post, byLikes, byDate);
    var low := OneOfFour(byLikes, byDate, 2);
    if m < p + 3 {
      q := m;
    } else {
      q := OneOfFour(byLikes, byDate, p);
    }
    LeadingOne(q, k);
    if a <= r {
      OneBeforeDigit(a, q);
    }
  }

  lemma OtherDates(t: Tables, post: int, byLikes: seq<Authored>, byDate: seq<Authored>, r: nat, s: nat)
    requires KeysUnique(t) && Windows(t, post, byLikes, byDate) && SwappedOnOneDate(byLikes, byDate)
    requires Other(byLikes, byDate, r) && Other(byLikes, byDate, s) && Swapped(r, s)
    ensures byDate[r-1].comment.date == byDate[s-1].comment.date
  {
    RankAt(t, post, byDate, r);
    RankAt(t, post, byDate, s);
  }

  lemma EndsOnOneDate(t: Tables, post: int, byLikes: seq<Authored>, byDate: seq<Authored>, a: nat, m: nat)
    requires KeysUnique(t) && Windows(t, post, byLikes, byDate) && SwappedOnOneDate(byLikes, byDate)
    requires LowestOther(byLikes, byDate, a) && HighestSwapped(byLikes, byDate, m)
    ensures byDate[a-1].comment.date == byDate[m-1].comment.date
  {
    var r: nat :| Other(byLikes, byDate, r) && Swapped(r, m);
    SwappedSpan(r, m, |byDate|);
    var q := LowestReached(t, post, byLikes, byDate, a, r, m);
    OtherDates(t, post, byLikes, byDate, r, m);
    OtherDates(t, post, byLikes, byDate, a, q);
    DateOf(t, post, byDate, a, r);
    DateOf(t, post, byDate, r, q);
  }

  lemma OneDateBetween(t: Tables, post: int, byLikes: seq<Authored>, byDate: seq<Authored>, a: nat, m: nat)
    requires KeysUnique(t) && Windows(t, post, byLikes, byDate)
    requires LowestOther(byLikes, byDate, a) && HighestSwapped(byLikes, byDate, m)
    requires byDate[a-1].comment.date == byDate[m-1].comment.date
    ensures SwappedOnOneDate(byLikes, byDate)
  {
    forall x, y | x in byDate && y in byDate && RowNumber(byLikes, x) > 3 && RowNumber(byLikes, y) > 3 &&
      Swapped(RowNumber(byDate, x), RowNumber(byDate, y))
      ensures x.comment.date == y.comment.date
    {
      PairWithinEnds(t, post, byLikes, byDate, a, m, x, y);
    }
  }

  lemma PairWithinEnds(t: Tables, post: int, byLikes: seq<Authored>, byDate: seq<Authored>, a: nat, m: nat,
      x: Authored, y: Authored)
    requires Windows(t, post, byLikes, byDate)
    requires LowestOther(byLikes, byDate, a) && HighestSwapped(byLikes, byDate, m)
    requires byDate[a-1].comment.date == byDate[m-1].comment.date
    requires x in byDate && y in byDate && RowNumber(byLikes, x) > 3 && RowNumber(byLikes, y) > 3
    requires Swapped(RowNumber(byDate, x), RowNumber(byDate, y))
    ensures x.comment.date == y.comment.date
  {
    AtRank(t, post, byDate, x);
    AtRank(t, post, byDate, y);
    WithinEnds(t, post, byLikes, byDate, a, m, RowNumber(byDate, x), RowNumber(byDate, y));
  }

  lemma AtRank(t: Tables, post: int, byDate: seq<Authored>, x: Authored)
    requires Arrangement(Authors(t, post), byDate, Earlier()) && x in byDate
    ensures 1 <= RowNumber(byDate, x) <= |byDate| && byDate[RowNumber(byDate, x) - 1] == x
  {
    ArrangementMembers(Authors(t, post), byDate, Earlier());
    RankOf(Authors(t, post), byDate, Earlier(), x);
  }

  lemma WithinEnds(t: Tables, post: int, byLikes: seq<Authored>, byDate: seq<Authored>, a: nat, m: nat, r: nat, s: nat)
    requires Windows(t, post, byLikes, byDate)
    requires LowestOther(byLikes, byDate, a) && HighestSwapped(byLikes, byDate, m)
    requires byDate[a-1].comment.date == byDate[m-1].comment.date
    requires Other(byLikes, byDate, r) && Other(byLikes, byDate, s) && Swapped(r, s)
    ensures byDate[r-1].comment.date == byDate[s-1].comment.date
  {
    SwappedSpan(r, s, |byDate|);
    assert SwappedOther(byLikes, byDate, s);
    DateOf(t, post, byDate, a, r);
    DateOf(t, post, byDate, r, s);
    DateOf(t, post, byDate, s, m);
  }

  /** The remaining threads are in date order exactly when the lowest rank from two on and the
      highest swapped one, the top three left aside, have one date. */
  lemma OthersInDateOrderByEnds(t: Tables, post: int, userIdx: int, byLikes: seq<Authored>, byDate: seq<Authored>,
      out: seq<Row>, a: nat, m: nat)
    requires KeysUnique(t) && IsList(t, post, userIdx, byLikes, byDate, out)
    requires LowestOther(byLikes, byDate, a) && HighestSwapped(byLikes, byDate, m)
    ensures OthersInDateOrder(byLikes, byDate, out) <==> byDate[a-1].comment.date == byDate[m-1].comment.date
  {
    OthersInDateOrderExactly(t, post, userIdx, byLikes, byDate, out);
    if SwappedOnOneDate(byLikes, byDate) {
      EndsOnOneDate(t, post, byLikes, byDate, a, m);
    } else if byDate[a-1].comment.date == byDate[m-1].comment.date {
      OneDateBetween(t, post, byLikes, byDate, a, m);
    }
  }

  /** Thirteen or more comments, no two on one date: whatever the likes, the threads below the
      top three are out of date order. */
  lemma ThirteenDates(t: Tables, post: int, userIdx: int, byLikes: seq<Authored>, byDate: seq<Authored>, out: seq<Row>)
    requires KeysUnique(t) && IsList(t, post, userIdx, byLikes, byDate, out) && |byDate| >= 13
    requires forall j, k :: 0 <= j < k < |byDate| ==> byDate[j].comment.date != byDate[k].comment.date
    ensures !OthersInDateOrder(byLikes, byDate, out)
  {
    WindowsRanked(t, post, byLikes, byDate);
    var a := OneOfFour(byLikes, byDate, 2);
    var q := OneOfFour(byLikes, byDate, 10);
    assert Pow10(1) == 10 * Pow10(0);
    LeadingOne(q, 1);
    OneBeforeDigit(a, q);
    OthersInDateOrderExactly(t, post, userIdx, byLikes, byDate, out);
    if SwappedOnOneDate(byLikes, byDate) {
      OtherDates(t, post, byLikes, byDate, a, q);
    }
  }
}
