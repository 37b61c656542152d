/** Deletions that are meant to take dependent rows along (delComment.php, delPart.php):
    which references they keep intact, and what the next post (EnrollPart.php) finds. */
module Cascades {
  import opened Relational
  import opened Mysqli
  import opened Images

  datatype Comment = Comment(commentIdx: int, boardIdx: int, userIdx: int)
  datatype Reply = Reply(replyIdx: int, commentIdx: int, userIdx: int)
  datatype Like = Like(userIdx: int, commentIdx: int)
  datatype Board = Board(boardIdx: int, boardType: int)
  datatype Visit = Visit(boardIdx: int, userIdx: int)
  /** A like of the post itself. */
  datatype PostLike = PostLike(userIdx: int, boardIdx: int)
  datatype Content = Content(boardIdx: int, cont: string)
  datatype Part = Part(marketIdx: int, boardIdx: int, img: Option<string>)
  datatype PartImg = PartImg(marketIdx: int, img: string)
  datatype PartTrade = PartTrade(marketIdx: int, seller: int)

  datatype State = State(
    comments: seq<Comment>, replies: seq<Reply>, likes: seq<Like>, boards: seq<Board>, visits: seq<Visit>,
    postLikes: seq<PostLike>, contents: seq<Content>,
    parts: seq<Part>, partImgs: seq<PartImg>, partTrades: seq<PartTrade>, files: set<string>)

  function CommentKey(c: Comment): int { c.commentIdx }
  function CommentBoard(c: Comment): int { c.boardIdx }
  function ReplyKey(r: Reply): int { r.replyIdx }
  function ReplyComment(r: Reply): int { r.commentIdx }
  function LikeComment(l: Like): int { l.commentIdx }
  function BoardKey(b: Board): int { b.boardIdx }
  function VisitBoard(v: Visit): int { v.boardIdx }
  function PostLikeBoard(l: PostLike): int { l.boardIdx }
  function ContentBoard(c: Content): int { c.boardIdx }
  function PartKey(p: Part): int { p.marketIdx }
  function PartBoard(p: Part): int { p.boardIdx }
  function ImgPart(i: PartImg): int { i.marketIdx }
  function TradePart(d: PartTrade): int { d.marketIdx }

  // ----- EnrollPart.php -----

  /** A post of type 1 and its part, both under `max + 1` ids. */
  function EnrolPart(s: State): State {
    var boardIdx := NextId(s.boards, BoardKey);
    s.(boards := s.boards + [Board(boardIdx, 1)],
       parts := s.parts + [Part(NextId(s.parts, PartKey), boardIdx, None)])
  }

  // ----- EnrollPartImg.php -----

  function WithImage(marketIdx: int, name: string): Part -> Part {
    (p: Part) => if p.marketIdx == marketIdx then p.(img := Some(name)) else p
  }

  /** The image with flag 0 is the part's own, the others have rows. */
  function AddPartImage(s: State, marketIdx: nat, flag: nat): State {
    var name := ImageName("part/pr", marketIdx, flag);
    var s' := s.(files := s.files + {name});
    if flag == 0 then s'.(parts := Map(s.parts, WithImage(marketIdx, name)))
    else s'.(partImgs := s.partImgs + [PartImg(marketIdx, name)])
  }

  // ----- delComment.php -----

  function WithoutReply(s: State, replyIdx: int): State {
    s.(replies := Delete(s.replies, ReplyKey, replyIdx))
  }

  function WithoutComment(s: State, commentIdx: int): State {
    s.(replies := Delete(s.replies, ReplyComment, commentIdx),
       likes := Delete(s.likes, LikeComment, commentIdx),
       comments := Delete(s.comments, CommentKey, commentIdx))
  }

  // ----- delPart.php -----

  function FirstPart(s: State, marketIdx: int): Option<Part> {
    var rows := Lookup(s.parts, PartKey, Some(marketIdx));
    if rows == [] then None else Some(rows[0])
  }

  function ImageNames(imgs: seq<PartImg>): set<string> {
    set i | i in imgs :: i.img
  }

  function OwnImage(p: Option<Part>): set<string> {
    if p.Some? && p.value.img.Some? then {p.value.img.value} else {}
  }

  /** The post's board with its visits and comments goes; the replies and likes stay. */
  function WithoutBoard(s: State, boardIdx: Option<int>): State {
    if boardIdx.None? then s
    else s.(visits := Delete(s.visits, VisitBoard, boardIdx.value),
            comments := Delete(s.comments, CommentBoard, boardIdx.value),
            boards := Delete(s.boards, BoardKey, boardIdx.value))
  }

  function BoardOf(s: State, marketIdx: int): Option<int> {
    var p := FirstPart(s, marketIdx);
    if p.Some? then Some(p.value.boardIdx) else None
  }

  function WithoutImages(s: State, marketIdx: int): State {
    s.(files := s.files - ImageNames(Lookup(s.partImgs, ImgPart, Some(marketIdx))) - OwnImage(FirstPart(s, marketIdx)),
       partImgs := Delete(s.partImgs, ImgPart, marketIdx))
  }

  /** The deletion as the script performs it. */
  function WithoutPart(s: State, marketIdx: int): State {
    WithoutImages(WithoutBoard(s, BoardOf(s, marketIdx)), marketIdx).(
      partTrades := Delete(s.partTrades, TradePart, marketIdx),
      parts := Delete(s.parts, PartKey, marketIdx))
  }

  class Database {
    var db: State

    method EnrollPart() returns (marketIdx: int)
      modifies this
      ensures db == EnrolPart(old(db)) && marketIdx == NextId(old(db).parts, PartKey)
    {
      var boardIdx := NextId(db.boards, BoardKey);
      marketIdx := NextId(db.parts, PartKey);
      db := db.(boards := db.boards + [Board(boardIdx, 1)]);
      db := db.(parts := db.parts + [Part(marketIdx, boardIdx, None)]);
    }

    method EnrollPartImg(marketIdx: nat, flag: nat)
      modifies this
      ensures db == AddPartImage(old(db), marketIdx, flag)
    {
      var filename := ImageName("part/pr", marketIdx, flag);
      db := db.(files := db.files + {filename});
      if flag == 0 {
        db := db.(parts := Map(db.parts, WithImage(marketIdx, filename)));
      } else {
        db := db.(partImgs := db.partImgs + [PartImg(marketIdx, filename)]);
      }
    }

    method DelComment(kind: string, idx: int)
      modifies this
      ensures db == if kind == "recomment" then WithoutReply(old(db), idx)
                    else if kind == "comment" then WithoutComment(old(db), idx)
                    else old(db)
      ensures kind == "recomment" ==> forall r :: r in db.replies <==> r in old(db).replies && r.replyIdx != idx
      ensures kind == "comment" ==> forall r :: r in db.replies <==> r in old(db).replies && r.commentIdx != idx
    {
      if kind == "recomment" {
        db := db.(replies := Delete(db.replies, ReplyKey, idx));
      } else if kind == "comment" {
        db := db.(replies := Delete(db.replies, ReplyComment, idx));
        db := db.(likes := Delete(db.likes, LikeComment, idx));
        db := db.(comments := Delete(db.comments, CommentKey, idx));
      }
    }

    method DelPart(marketIdx: int)
      modifies this
      ensures db == WithoutPart(old(db), marketIdx)
    {
      var found := Lookup(db.parts, PartKey, Some(marketIdx));
      var result := new ResultSet<Assoc>(Column(found, "board_idx", PartBoard));
      var board := result.Fetch();
      var boardIdx := Field(board, "board_idx");
      if boardIdx.Some? {
        DeleteComments(result, boardIdx.value, found);
      }
      DeleteImages(marketIdx);
      if boardIdx.Some? {
        db := db.(boards := Delete(db.boards, BoardKey, boardIdx.value));
      }
      db := db.(partTrades := Delete(db.partTrades, TradePart, marketIdx));
      db := db.(parts := Delete(db.parts, PartKey, marketIdx));
    }

    /** Lines 16-31. */
    method DeleteComments(result: ResultSet<Assoc>, boardIdx: int, ghost found: seq<Part>)
      requires result.Valid() && result.rows == Column(found, "board_idx", PartBoard)
      modifies this, result
      ensures db == old(db).(visits := Delete(old(db).visits, VisitBoard, boardIdx),
                             comments := Delete(old(db).comments, CommentBoard, boardIdx))
    {
      db := db.(visits := Delete(db.visits, VisitBoard, boardIdx));
      var rowCnt := |Lookup(db.comments, CommentBoard, Some(boardIdx))|;
      OtherColumn(found, PartBoard, "board_idx", result.next, rowCnt, db.replies, ReplyComment, "comment_idx");
      OtherColumn(found, PartBoard, "board_idx", result.next, rowCnt, db.likes, LikeComment, "comment_idx");
      DeleteAnswers(result, rowCnt);
      db := db.(comments := Delete(db.comments, CommentBoard, boardIdx));
    }

    /** The loop of lines 25-30. */
    method DeleteAnswers(result: ResultSet<Assoc>, rowCnt: nat)
      requires result.Valid()
      modifies this, result
      ensures db == WithoutAnswers(old(db), Taken(result.rows, old(result.next), rowCnt))
    {
      ghost var from, all := result.next, db;
      NothingMentioned(all.replies, ReplyComment, Taken(result.rows, from, 0), "comment_idx");
      NothingMentioned(all.likes, LikeComment, Taken(result.rows, from, 0), "comment_idx");
      for i := 0 to rowCnt
        invariant result.Valid()
        invariant result.next == if i <= |result.rows| - from then from + i else |result.rows|
        invariant db == WithoutAnswers(all, Taken(result.rows, from, i))
      {
        var row := result.Fetch();
        var commentIdx := Field(row, "comment_idx");
        if commentIdx.Some? {
          db := db.(replies := Delete(db.replies, ReplyComment, commentIdx.value));
          db := db.(likes := Delete(db.likes, LikeComment, commentIdx.value));
        }
        MentionedNext(all.replies, ReplyComment, result.rows, "comment_idx", from, i);
        MentionedNext(all.likes, LikeComment, result.rows, "comment_idx", from, i);
      }
    }

    /** Lines 34-48. */
    method DeleteImages(marketIdx: int)
      modifies this
      ensures db == WithoutImages(old(db), marketIdx)
    {
      var result3 := new ResultSet(Lookup(db.partImgs, ImgPart, Some(marketIdx)));
      Unlink(result3);
      db := db.(partImgs := Delete(db.partImgs, ImgPart, marketIdx));
      db := db.(files := db.files - OwnImage(FirstPart(db, marketIdx)));
    }

    /** The loop of lines 38-42. */
    method Unlink(result: ResultSet<PartImg>)
      requires result.Valid() && result.next == 0
      modifies this, result
      ensures db == old(db).(files := old(db).files - ImageNames(result.rows))
    {
      for i := 0 to |result.rows|
        invariant result.Valid() && result.next == i
        invariant db == old(db).(files := old(db).files - ImageNames(result.rows[..i]))
      {
        assert result.rows[..i+1] == result.rows[..i] + [result.rows[i]];
        var row := result.Fetch();
        db := db.(files := db.files - {row.value.img});
      }
      assert result.rows[..|result.rows|] == result.rows;
    }
  }

  /** Without the replies and likes of the comments the fetched rows mention. */
  function WithoutAnswers(s: State, rows: seq<Assoc>): State {
    s.(replies := WithoutMentioned(s.replies, ReplyComment, rows, "comment_idx"),
       likes := WithoutMentioned(s.likes, LikeComment, rows, "comment_idx"))
  }

  // ----- references -----

  /** Replies and likes belong to existing comments. */
  ghost predicate CommentsIntact(s: State) {
    && RefersTo(s.replies, ReplyComment, s.comments, CommentKey)
    && RefersTo(s.likes, LikeComment, s.comments, CommentKey)
  }

  /** What belongs to a post belongs to an existing one. */
  ghost predicate BoardsIntact(s: State) {
    && RefersTo(s.comments, CommentBoard, s.boards, BoardKey)
    && RefersTo(s.visits, VisitBoard, s.boards, BoardKey)
    && RefersTo(s.postLikes, PostLikeBoard, s.boards, BoardKey)
    && RefersTo(s.contents, ContentBoard, s.boards, BoardKey)
    && RefersTo(s.parts, PartBoard, s.boards, BoardKey)
  }

  /** What belongs to a part belongs to an existing one. */
  ghost predicate PartsIntact(s: State) {
    && RefersTo(s.partImgs, ImgPart, s.parts, PartKey)
    && RefersTo(s.partTrades, TradePart, s.parts, PartKey)
  }

  ghost predicate Intact(s: State) {
    CommentsIntact(s) && BoardsIntact(s) && PartsIntact(s)
  }

  /** Deleting a comment leaves nothing that refers to it, keeps every other reference
      intact, and removes only the comment and what refers to it. */
  lemma CommentDeletionIntact(s: State, commentIdx: int)
    requires Intact(s)
    ensures Intact(WithoutComment(s, commentIdx))
    ensures !HasKey(WithoutComment(s, commentIdx).comments, CommentKey, commentIdx)
    ensures forall r :: r in s.replies ==> (r in WithoutComment(s, commentIdx).replies <==> r.commentIdx != commentIdx)
    ensures forall l :: l in s.likes ==> (l in WithoutComment(s, commentIdx).likes <==> l.commentIdx != commentIdx)
    ensures forall c :: c in s.comments ==>
              (c in WithoutComment(s, commentIdx).comments <==> c.commentIdx != commentIdx)
  {
    DeleteBoth(s.replies, ReplyComment, s.comments, CommentKey, commentIdx);
    DeleteBoth(s.likes, LikeComment, s.comments, CommentKey, commentIdx);
  }

  /** The comment is one of the board's. */
  ghost predicate UnderBoard(s: State, boardIdx: int, commentIdx: int) {
    Under(s.comments, CommentKey, CommentBoard, commentIdx, boardIdx)
  }

  /** No reply and no like is attached to a comment of the board. */
  ghost predicate Unanswered(s: State, boardIdx: int) {
    && (forall r :: r in s.replies ==> !UnderBoard(s, boardIdx, r.commentIdx))
    && (forall l :: l in s.likes ==> !UnderBoard(s, boardIdx, l.commentIdx))
  }

  /** The post has no likes and no contents of its own, and no other part. */
  ghost predicate BoardUnused(s: State, marketIdx: int, boardIdx: int) {
    && !HasKey(s.postLikes, PostLikeBoard, boardIdx)
    && !HasKey(s.contents, ContentBoard, boardIdx)
    && (forall p :: p in s.parts && p.boardIdx == boardIdx ==> p.marketIdx == marketIdx)
  }

  lemma CommentReferences(s: State, marketIdx: int, boardIdx: int)
    requires CommentsIntact(s) && Unique(s.comments, CommentKey) && BoardOf(s, marketIdx) == Some(boardIdx)
    ensures CommentsIntact(WithoutPart(s, marketIdx)) <==> Unanswered(s, boardIdx)
  {
    DeleteOwned(s.replies, ReplyComment, s.comments, CommentKey, CommentBoard, boardIdx);
    DeleteOwned(s.likes, LikeComment, s.comments, CommentKey, CommentBoard, boardIdx);
  }

  lemma BoardReferences(s: State, marketIdx: int, boardIdx: int)
    requires BoardsIntact(s) && BoardOf(s, marketIdx) == Some(boardIdx)
    ensures BoardsIntact(WithoutPart(s, marketIdx)) <==> BoardUnused(s, marketIdx, boardIdx)
  {
    var parts := Delete(s.parts, PartKey, marketIdx);
    DeleteBoth(s.comments, CommentBoard, s.boards, BoardKey, boardIdx);
    DeleteBoth(s.visits, VisitBoard, s.boards, BoardKey, boardIdx);
    DeleteReferred(s.postLikes, PostLikeBoard, s.boards, BoardKey, boardIdx);
    DeleteReferred(s.contents, ContentBoard, s.boards, BoardKey, boardIdx);
    DeleteReferred(parts, PartBoard, s.boards, BoardKey, boardIdx);
    assert HasKey(parts, PartBoard, boardIdx) <==>
           exists p :: p in s.parts && p.marketIdx != marketIdx && PartBoard(p) == boardIdx;
  }

  lemma PartReferences(s: State, marketIdx: int)
    requires PartsIntact(s)
    ensures PartsIntact(WithoutPart(s, marketIdx))
  {
    DeleteBoth(s.partImgs, ImgPart, s.parts, PartKey, marketIdx);
    DeleteBoth(s.partTrades, TradePart, s.parts, PartKey, marketIdx);
  }

  /** Deleting a part post leaves the references intact exactly when the comments of its board
      had neither replies nor likes, and the board neither likes nor contents nor another part. */
  lemma PartDeletionIntact(s: State, marketIdx: int)
    requires Intact(s) && Unique(s.comments, CommentKey)
    ensures Intact(WithoutPart(s, marketIdx)) <==>
            BoardOf(s, marketIdx).Some? ==>
              Unanswered(s, BoardOf(s, marketIdx).value) && BoardUnused(s, marketIdx, BoardOf(s, marketIdx).value)
  {
    PartReferences(s, marketIdx);
    if BoardOf(s, marketIdx).Some? {
      CommentReferences(s, marketIdx, BoardOf(s, marketIdx).value);
      BoardReferences(s, marketIdx, BoardOf(s, marketIdx).value);
    }
  }

  // ----- image files -----

  /** Image names are those EnrollPartImg.php makes. */
  ghost predicate Pictured(s: State) {
    && (forall p :: p in s.parts && p.img.Some? ==> ImageOf("part/pr", p.marketIdx, p.img.value))
    && (forall i :: i in s.partImgs ==> ImageOf("part/pr", i.marketIdx, i.img))
  }

  /** Enrolments and uploads keep them so, and an upload adds a file of its own part alone. */
  lemma UploadPictured(s: State, marketIdx: nat, flag: nat)
    requires Pictured(s)
    ensures Pictured(EnrolPart(s)) && Pictured(AddPartImage(s, marketIdx, flag))
    ensures forall other, name :: other != marketIdx && ImageOf("part/pr", other, name) ==>
              (name in AddPartImage(s, marketIdx, flag).files <==> name in s.files)
  {
    var added := ImageName("part/pr", marketIdx, flag);
    assert ImageOf("part/pr", marketIdx, added);
    forall other, name | other != marketIdx && ImageOf("part/pr", other, name) ensures name != added {
      if name == added {
        ImagesApart("part/pr", other, marketIdx, name);
      }
    }
    forall p | p in Map(s.parts, WithImage(marketIdx, added)) && p.img.Some?
      ensures ImageOf("part/pr", p.marketIdx, p.img.value)
    {
      MapMembers(s.parts, WithImage(marketIdx, added), p);
    }
  }

  /** A deletion takes the part with its images, sales and files, and its board with the visits
      and comments; every row and file of another part or board stays, and so do all replies
      and likes. */
  lemma PartDeletionFrame(s: State, marketIdx: int)
    requires Pictured(s) && Unique(s.parts, PartKey)
    ensures var s', board := WithoutPart(s, marketIdx), BoardOf(s, marketIdx);
            && (forall p :: p in s'.parts <==> p in s.parts && p.marketIdx != marketIdx)
            && (forall i :: i in s'.partImgs <==> i in s.partImgs && i.marketIdx != marketIdx)
            && (forall d :: d in s'.partTrades <==> d in s.partTrades && d.marketIdx != marketIdx)
            && (forall b :: b in s'.boards <==> b in s.boards && board != Some(b.boardIdx))
            && (forall v :: v in s'.visits <==> v in s.visits && board != Some(v.boardIdx))
            && (forall c :: c in s'.comments <==> c in s.comments && board != Some(c.boardIdx))
            && s'.postLikes == s.postLikes && s'.contents == s.contents
            && s'.replies == s.replies && s'.likes == s.likes
    ensures forall i :: i in s.partImgs && i.marketIdx == marketIdx ==> i.img !in WithoutPart(s, marketIdx).files
    ensures forall p :: p in s.parts && p.marketIdx == marketIdx && p.img.Some? ==>
              p.img.value !in WithoutPart(s, marketIdx).files
    ensures forall other, name :: other != marketIdx && ImageOf("part/pr", other, name) ==>
              (name in WithoutPart(s, marketIdx).files <==> name in s.files)
    ensures Pictured(WithoutPart(s, marketIdx))
  {
    var imgs, parts := Lookup(s.partImgs, ImgPart, Some(marketIdx)), Lookup(s.parts, PartKey, Some(marketIdx));
    assert parts == [] || parts[0] in parts;
    forall i | i in s.partImgs && i.marketIdx == marketIdx ensures i.img in ImageNames(imgs) {
      assert i in imgs;
    }
    forall p | p in s.parts && p.marketIdx == marketIdx ensures FirstPart(s, marketIdx) == Some(p) {
      assert p in parts;
      SameRow(s.parts, PartKey, p, parts[0]);
    }
    forall other, name | other != marketIdx && ImageOf("part/pr", other, name)
      ensures name !in ImageNames(imgs) && name !in OwnImage(FirstPart(s, marketIdx))
    {
      if name in ImageNames(imgs) + OwnImage(FirstPart(s, marketIdx)) {
        assert ImageOf("part/pr", marketIdx, name);
        ImagesApart("part/pr", other, marketIdx, name);
      }
    }
  }

  // ----- the loop over the right result set -----

  /** The deletion, had its loop read the comments' result set. */
  function WithoutPartRepaired(s: State, marketIdx: int): State {
    var found := Column(Lookup(s.comments, CommentBoard, BoardOf(s, marketIdx)), "comment_idx", CommentKey);
    WithoutPart(WithoutAnswers(s, Taken(found, 0, |found|)), marketIdx)
  }

  /** Were the loop to read the comments' result set instead, exactly the replies and likes
      under the board would go, all else would end as it does, and only the post's own likes
      and contents and other parts on the board could lose their reference. */
  lemma LoopOverCommentsIntact(s: State, marketIdx: int, boardIdx: int)
    requires Intact(s) && Unique(s.comments, CommentKey) && BoardOf(s, marketIdx) == Some(boardIdx)
    ensures var s' := WithoutPartRepaired(s, marketIdx);
            && (forall r :: r in s'.replies <==> r in s.replies && !UnderBoard(s, boardIdx, r.commentIdx))
            && (forall l :: l in s'.likes <==> l in s.likes && !UnderBoard(s, boardIdx, l.commentIdx))
            && s' == WithoutPart(s, marketIdx).(replies := s'.replies, likes := s'.likes)
            && CommentsIntact(s')
            && (Intact(s') <==> BoardUnused(s, marketIdx, boardIdx))
  {
    var comments := Lookup(s.comments, CommentBoard, Some(boardIdx));
    var found := Column(comments, "comment_idx", CommentKey);
    assert Taken(found, 0, |found|) == found;
    forall x ensures Mentions(found, "comment_idx", x) <==> UnderBoard(s, boardIdx, x) {
      ColumnMentions(comments, "comment_idx", CommentKey, x);
    }
    AnswersGone(s, boardIdx, found);
    var s' := WithoutAnswers(s, found);
    CommentReferences(s', marketIdx, boardIdx);
    PartDeletionIntact(s', marketIdx);
  }

  lemma AnswersGone(s: State, boardIdx: int, rows: seq<Assoc>)
    requires Intact(s)
    requires forall x :: Mentions(rows, "comment_idx", x) <==> UnderBoard(s, boardIdx, x)
    ensures var s' := WithoutAnswers(s, rows);
            && Intact(s') && Unanswered(s', boardIdx)
            && (forall r :: r in s'.replies <==> r in s.replies && !UnderBoard(s, boardIdx, r.commentIdx))
            && (forall l :: l in s'.likes <==> l in s.likes && !UnderBoard(s, boardIdx, l.commentIdx))
  {
    var s' := WithoutAnswers(s, rows);
    assert forall x :: UnderBoard(s', boardIdx, x) <==> UnderBoard(s, boardIdx, x);
  }

  // ----- ids used again -----

  /** Nothing is attached to the post yet. */
  ghost predicate Fresh(s: State, boardIdx: int) {
    && !HasKey(s.comments, CommentBoard, boardIdx) && !HasKey(s.visits, VisitBoard, boardIdx)
    && !HasKey(s.postLikes, PostLikeBoard, boardIdx) && !HasKey(s.contents, ContentBoard, boardIdx)
  }

  /** While references are intact a new post starts fresh, and they stay intact. */
  lemma NewPostFresh(s: State)
    requires Intact(s)
    ensures Intact(EnrolPart(s)) && Fresh(EnrolPart(s), NextId(s.boards, BoardKey))
  {
    var s', boardIdx, marketIdx := EnrolPart(s), NextId(s.boards, BoardKey), NextId(s.parts, PartKey);
    assert Board(boardIdx, 1) in s'.boards;
    RefersToMore(s.comments, CommentBoard, s.boards, s'.boards, BoardKey);
    RefersToMore(s.visits, VisitBoard, s.boards, s'.boards, BoardKey);
    RefersToMore(s.postLikes, PostLikeBoard, s.boards, s'.boards, BoardKey);
    RefersToMore(s.contents, ContentBoard, s.boards, s'.boards, BoardKey);
    RefersToMore(s.parts, PartBoard, s.boards, s'.boards, BoardKey);
    RefersToMore(s.partImgs, ImgPart, s.parts, s'.parts, PartKey);
    RefersToMore(s.partTrades, TradePart, s.parts, s'.parts, PartKey);
    assert !HasKey(s.boards, BoardKey, boardIdx);
  }

  /** The post enrolled after the newest one is deleted gets the deleted post's id exactly when
      the id before is in use or it was the only post, and then also its likes and contents. */
  lemma DeletedLikesInherited(s: State, marketIdx: int, boardIdx: int)
    requires BoardOf(s, marketIdx) == Some(boardIdx) && forall b :: b in s.boards ==> b.boardIdx <= boardIdx
    ensures var s' := WithoutPart(s, marketIdx);
            && (NextId(s'.boards, BoardKey) == boardIdx <==>
                HasKey(s.boards, BoardKey, boardIdx - 1) ||
                (boardIdx == 1 && forall b :: b in s.boards ==> b.boardIdx == 1))
            && (Fresh(EnrolPart(s'), boardIdx) <==>
                !HasKey(s.postLikes, PostLikeBoard, boardIdx) && !HasKey(s.contents, ContentBoard, boardIdx))
  {
    NextAfterDelete(s.boards, BoardKey, boardIdx);
  }

  // ----- an example -----

  /** One part post, liked once: deleting it leaves the like without its post, which the next
      part post then finds. */
  lemma LikedPostDeleted()
    ensures var s := State([], [], [], [Board(1, 1)], [], [PostLike(7, 1)], [], [Part(1, 1, None)], [], [], {});
            && Intact(s) && !Intact(WithoutPart(s, 1))
            && NextId(WithoutPart(s, 1).boards, BoardKey) == 1 && !Fresh(EnrolPart(WithoutPart(s, 1)), 1)
  {
    var s := State([], [], [], [Board(1, 1)], [], [PostLike(7, 1)], [], [Part(1, 1, None)], [], [], {});
    assert Board(1, 1) in s.boards && PostLike(7, 1) in s.postLikes && Part(1, 1, None) in s.parts;
    assert Lookup(s.parts, PartKey, Some(1)) == [Part(1, 1, None)];
    assert Intact(s);
    PartDeletionIntact(s, 1);
    DeletedLikesInherited(s, 1, 1);
  }

  /** One comment with one reply: deleting the part post leaves the reply without its comment. */
  lemma AnsweredPostDeleted()
    ensures var s := State([Comment(1, 1, 7)], [Reply(1, 1, 8)], [], [Board(1, 1)], [], [], [],
                           [Part(1, 1, None)], [], [], {});
            Intact(s) && !Intact(WithoutPart(s, 1))
  {
    var s := State([Comment(1, 1, 7)], [Reply(1, 1, 8)], [], [Board(1, 1)], [], [], [], [Part(1, 1, None)], [], [], {});
    assert Board(1, 1) in s.boards && Comment(1, 1, 7) in s.comments && Reply(1, 1, 8) in s.replies;
    assert Lookup(s.parts, PartKey, Some(1)) == [Part(1, 1, None)];
    assert Intact(s);
    assert UnderBoard(s, 1, 1);
    PartDeletionIntact(s, 1);
  }
}
