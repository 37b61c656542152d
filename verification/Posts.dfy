/** Runs of the scripts that write posts, their comments and their parts (EnrollPart.php,
    EnrollPartImg.php, insBoardImage.php, insBoardHistory.php, insComment.php, insRecomment.php,
    chgReco.php, chgCmtReco.php, delComment.php, delPart.php): when every state on the way has
    its references intact. */
module Posts {
  import opened Relational
  import opened Cascades

  datatype Op = Posting
              | Commenting(commentIdx: int, boardIdx: int, userIdx: int)
              | Answering(replyIdx: int, commentIdx: int, userIdx: int)
              | Liking(userIdx: int, boardIdx: int)
              | LikingComment(userIdx: int, commentIdx: int)
              | Visiting(userIdx: int, boardIdx: int)
              | Illustrating(boardIdx: int, cont: string)
              | Uploading(marketIdx: nat, flag: nat)
              | Uncommenting(commentIdx: int)
              | Unanswering(replyIdx: int)
              | Removing(marketIdx: nat)

  /** insComment.php: the key is the server's; one that is in use is refused. */
  function AddComment(s: State, c: Comment): State {
    if Lookup(s.comments, CommentKey, Some(c.commentIdx)) != [] then s else s.(comments := s.comments + [c])
  }

  /** insRecomment.php */
  function AddReply(s: State, r: Reply): State {
    s.(replies := s.replies + [r])
  }

  /** chgReco.php */
  function TogglePostLike(s: State, l: PostLike): State {
    s.(postLikes := Toggle(s.postLikes, l))
  }

  /** chgCmtReco.php */
  function ToggleLike(s: State, l: Like): State {
    s.(likes := Toggle(s.likes, l))
  }

  /** insBoardHistory.php: one row for each visitor. */
  function AddVisit(s: State, v: Visit): State {
    if v in s.visits then s else s.(visits := s.visits + [v])
  }

  /** insBoardImage.php and insBoardVideo.php */
  function AddContent(s: State, c: Content): State {
    s.(contents := s.contents + [c])
  }

  function Step(s: State, op: Op): State {
    match op
    case Posting => EnrolPart(s)
    case Commenting(commentIdx, boardIdx, userIdx) => AddComment(s, Comment(commentIdx, boardIdx, userIdx))
    case Answering(replyIdx, commentIdx, userIdx) => AddReply(s, Reply(replyIdx, commentIdx, userIdx))
    case Liking(userIdx, boardIdx) => TogglePostLike(s, PostLike(userIdx, boardIdx))
    case LikingComment(userIdx, commentIdx) => ToggleLike(s, Like(userIdx, commentIdx))
    case Visiting(userIdx, boardIdx) => AddVisit(s, Visit(boardIdx, userIdx))
    case Illustrating(boardIdx, cont) => AddContent(s, Content(boardIdx, cont))
    case Uploading(marketIdx, flag) => AddPartImage(s, marketIdx, flag)
    case Uncommenting(commentIdx) => WithoutComment(s, commentIdx)
    case Unanswering(replyIdx) => WithoutReply(s, replyIdx)
    case Removing(marketIdx) => WithoutPart(s, marketIdx)
  }

  /** What is written is attached to something that exists, and a part is removed only while its
      post has no answered comments, no likes or contents, and no other part. */
  ghost predicate Clean(s: State, op: Op) {
    match op
    case Posting => true
    case Commenting(commentIdx, boardIdx, _) =>
      HasKey(s.comments, CommentKey, commentIdx) || HasKey(s.boards, BoardKey, boardIdx)
    case Answering(_, commentIdx, _) => HasKey(s.comments, CommentKey, commentIdx)
    case Liking(_, boardIdx) => HasKey(s.boards, BoardKey, boardIdx)
    case LikingComment(_, commentIdx) => HasKey(s.comments, CommentKey, commentIdx)
    case Visiting(_, boardIdx) => HasKey(s.boards, BoardKey, boardIdx)
    case Illustrating(boardIdx, _) => HasKey(s.boards, BoardKey, boardIdx)
    case Uploading(marketIdx, flag) => flag == 0 || HasKey(s.parts, PartKey, marketIdx)
    case Uncommenting(_) => true
    case Unanswering(_) => true
    case Removing(marketIdx) =>
      BoardOf(s, marketIdx).Some? ==>
        Cascades.Unanswered(s, BoardOf(s, marketIdx).value) && BoardUnused(s, marketIdx, BoardOf(s, marketIdx).value)
  }

  lemma CommentIntact(s: State, c: Comment)
    requires Intact(s)
    ensures Intact(AddComment(s, c)) <==>
            HasKey(s.comments, CommentKey, c.commentIdx) || HasKey(s.boards, BoardKey, c.boardIdx)
  {
    var found := Lookup(s.comments, CommentKey, Some(c.commentIdx));
    EmptyOrMember(found);
    assert found == [] <==> !HasKey(s.comments, CommentKey, c.commentIdx);
    InsertReferring(s.comments, c, CommentBoard, s.boards, BoardKey);
    RefersToMore(s.replies, ReplyComment, s.comments, s.comments + [c], CommentKey);
    RefersToMore(s.likes, LikeComment, s.comments, s.comments + [c], CommentKey);
  }

  lemma ReplyIntact(s: State, r: Reply, replyIdx: int)
    requires Intact(s)
    ensures Intact(AddReply(s, r)) <==> HasKey(s.comments, CommentKey, r.commentIdx)
    ensures Intact(WithoutReply(s, replyIdx))
  {
    InsertReferring(s.replies, r, ReplyComment, s.comments, CommentKey);
  }

  lemma ContentIntact(s: State, c: Content)
    requires Intact(s)
    ensures Intact(AddContent(s, c)) <==> HasKey(s.boards, BoardKey, c.boardIdx)
  {
    InsertReferring(s.contents, c, ContentBoard, s.boards, BoardKey);
  }

  lemma PostLikeIntact(s: State, l: PostLike)
    requires Intact(s)
    ensures Intact(TogglePostLike(s, l)) <==> HasKey(s.boards, BoardKey, l.boardIdx)
  {
    InsertReferring(s.postLikes, l, PostLikeBoard, s.boards, BoardKey);
    assert l in s.postLikes ==> HasKey(s.boards, BoardKey, PostLikeBoard(l));
  }

  lemma LikeIntact(s: State, l: Like)
    requires Intact(s)
    ensures Intact(ToggleLike(s, l)) <==> HasKey(s.comments, CommentKey, l.commentIdx)
  {
    InsertReferring(s.likes, l, LikeComment, s.comments, CommentKey);
    assert l in s.likes ==> HasKey(s.comments, CommentKey, LikeComment(l));
  }

  lemma VisitIntact(s: State, v: Visit)
    requires Intact(s)
    ensures Intact(AddVisit(s, v)) <==> HasKey(s.boards, BoardKey, v.boardIdx)
  {
    InsertReferring(s.visits, v, VisitBoard, s.boards, BoardKey);
    assert v in s.visits ==> HasKey(s.boards, BoardKey, VisitBoard(v));
  }

  lemma UploadIntact(s: State, marketIdx: nat, flag: nat)
    requires Intact(s)
    ensures Intact(AddPartImage(s, marketIdx, flag)) <==> flag == 0 || HasKey(s.parts, PartKey, marketIdx)
  {
    var s' := AddPartImage(s, marketIdx, flag);
    if flag == 0 {
      var f := WithImage(marketIdx, Images.ImageName("part/pr", marketIdx, flag));
      forall k | HasKey(s.parts, PartKey, k) ensures HasKey(s'.parts, PartKey, k) {
        var p :| p in s.parts && PartKey(p) == k;
        MapMembers(s.parts, f, f(p));
      }
      forall p | p in s'.parts ensures HasKey(s.boards, BoardKey, PartBoard(p)) {
        MapMembers(s.parts, f, p);
      }
    } else {
      InsertReferring(s.partImgs, s'.partImgs[|s.partImgs|], ImgPart, s.parts, PartKey);
    }
  }

  /** An operation keeps the references intact exactly when it is clean. */
  lemma StepIntact(s: State, op: Op)
    requires Intact(s) && Unique(s.comments, CommentKey)
    ensures Intact(Step(s, op)) <==> Clean(s, op)
  {
    match op
    case Posting => NewPostFresh(s);
    case Commenting(commentIdx, boardIdx, userIdx) => CommentIntact(s, Comment(commentIdx, boardIdx, userIdx));
    case Answering(replyIdx, commentIdx, userIdx) => ReplyIntact(s, Reply(replyIdx, commentIdx, userIdx), replyIdx);
    case Liking(userIdx, boardIdx) => PostLikeIntact(s, PostLike(userIdx, boardIdx));
    case LikingComment(userIdx, commentIdx) => LikeIntact(s, Like(userIdx, commentIdx));
    case Visiting(userIdx, boardIdx) => VisitIntact(s, Visit(boardIdx, userIdx));
    case Illustrating(boardIdx, cont) => ContentIntact(s, Content(boardIdx, cont));
    case Uploading(marketIdx, flag) => UploadIntact(s, marketIdx, flag);
    case Uncommenting(commentIdx) => CommentDeletionIntact(s, commentIdx);
    case Unanswering(replyIdx) => ReplyIntact(s, Reply(replyIdx, 0, 0), replyIdx);
    case Removing(marketIdx) => PartDeletionIntact(s, marketIdx);
  }

  lemma StepUnique(s: State, op: Op)
    requires Unique(s.comments, CommentKey)
    ensures Unique(Step(s, op).comments, CommentKey)
  {
    match op
    case Posting =>
    case Commenting(commentIdx, boardIdx, userIdx) =>
      var found := Lookup(s.comments, CommentKey, Some(commentIdx));
      assert forall c :: c in s.comments && CommentKey(c) == commentIdx ==> c in found;
    case Answering(_, _, _) =>
    case Liking(_, _) =>
    case LikingComment(_, _) =>
    case Visiting(_, _) =>
    case Illustrating(_, _) =>
    case Uploading(_, _) =>
    case Uncommenting(commentIdx) => FilterUnique(s.comments, Not(Having(CommentKey, commentIdx)), CommentKey);
    case Unanswering(_) =>
    case Removing(marketIdx) =>
      if BoardOf(s, marketIdx).Some? {
        FilterUnique(s.comments, Not(Having(CommentBoard, BoardOf(s, marketIdx).value)), CommentKey);
      }
  }

  /** Every operation of the run is clean when its turn comes. */
  ghost predicate AllClean(s: State, ops: seq<Op>)
    decreases ops
  {
    ops == [] || (Clean(s, ops[0]) && AllClean(Step(s, ops[0]), ops[1..]))
  }

  /** Every state of the run has its references intact. */
  ghost predicate AlwaysIntact(s: State, ops: seq<Op>)
    decreases ops
  {
    Intact(s) && (ops == [] || AlwaysIntact(Step(s, ops[0]), ops[1..]))
  }

  /** A run keeps the references intact throughout exactly when all of it is clean. */
  lemma {:induction false} RunIntact(s: State, ops: seq<Op>)
    requires Intact(s) && Unique(s.comments, CommentKey)
    ensures AlwaysIntact(s, ops) <==> AllClean(s, ops)
    decreases ops
  {
    if ops == [] {
    } else {
      StepIntact(s, ops[0]);
      StepUnique(s, ops[0]);
      if Clean(s, ops[0]) {
        RunIntact(Step(s, ops[0]), ops[1..]);
      }
    }
  }
}
