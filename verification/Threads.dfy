/** Flattening comments and their replies into one list: the recursive common table
    expression that the two comment-list scripts share. */
module Threads {
  import opened Relational
  import opened Decimals

  datatype User = User(userIdx: int, id: string)
  datatype Comment = Comment(commentIdx: int, userIdx: int, content: string, date: int, post: int)
  datatype Reply = Reply(replyIdx: int, commentIdx: int, userIdx: int, content: string, date: int)

  /** The like columns, which only the board's list has. */
  datatype Likes = Likes(reco: nat, ranking: nat, state: nat)

  /** One row of the expression.  Only rows of the first arm carry the post's id. */
  datatype Row = Row(commentIdx: int, id: string, userIdx: int, content: string, date: int,
                     post: Option<int>, replyIdx: int, likes: Option<Likes>, ord: string)

  /** A comment joined with its author. */
  datatype Authored = Authored(comment: Comment, id: string)

  /** What a row shows. */
  datatype Entry = OfComment(comment: Comment) | OfReply(reply: Reply)

  function UserKey(u: User): int { u.userIdx }
  function CommentKey(c: Comment): int { c.commentIdx }
  function RowThread(row: Row): int { row.commentIdx }
  function RowOrd(row: Row): string { row.ord }
  function AuthoredThread(a: Authored): int { a.comment.commentIdx }
  function AuthoredComment(a: Authored): Comment { a.comment }

  function OfPost(post: int): Comment -> bool {
    (c: Comment) => c.post == post
  }

  /** The comments of the post, each with its author; one without an author is dropped. */
  function AuthoredOf(users: seq<User>, comments: seq<Comment>, post: int): seq<Authored> {
    FlatMap(Filter(comments, OfPost(post)), WithAuthor(users))
  }

  function WithAuthor(users: seq<User>): Comment -> seq<Authored> {
    (c: Comment) => Map(Lookup(users, UserKey, Some(c.userIdx)), (u: User) => Authored(c, u.id))
  }

  // ----- window ranks -----

  /** The window `order by date`. */
  function Earlier(): (Authored, Authored) -> bool {
    (a: Authored, b: Authored) => a.comment.date <= b.comment.date
  }

  /** `row_number()` within an arrangement. */
  function RowNumber(s: seq<Authored>, a: Authored): nat {
    if a in s then Position(s, a) + 1 else 0
  }

  lemma RankOf(s: seq<Authored>, out: seq<Authored>, le: (Authored, Authored) -> bool, a: Authored)
    requires Arrangement(s, out, le) && a in s
    ensures 1 <= RowNumber(out, a) <= |out| && out[RowNumber(out, a) - 1] == a
  {
    ArrangementMembers(s, out, le);
  }

  // ----- the recursive arm -----

  function ReplyRow(r: Reply, u: User, w: Row): Row {
    Row(r.commentIdx, u.id, u.userIdx, r.content, r.date, None, r.replyIdx, None, w.ord)
  }

  /** A working row r answers: `uc.comment_idx = CTE.comment_idx and CTE.board_idx = $board_idx`. */
  function Answers(post: int, r: Reply): Row -> bool {
    (w: Row) => w.commentIdx == r.commentIdx && w.post == Some(post)
  }

  function Joined(users: seq<User>, r: Reply): Row -> seq<Row> {
    w => Map(Lookup(users, UserKey, Some(r.userIdx)), (u: User) => ReplyRow(r, u, w))
  }

  function ArmOf(users: seq<User>, post: int, work: seq<Row>): Reply -> seq<Row> {
    r => FlatMap(Filter(work, Answers(post, r)), Joined(users, r))
  }

  function Arm(users: seq<User>, replies: seq<Reply>, post: int, work: seq<Row>): seq<Row> {
    FlatMap(replies, ArmOf(users, post, work))
  }

  lemma ArmOfMembers(users: seq<User>, post: int, work: seq<Row>, r: Reply, row: Row)
    ensures row in ArmOf(users, post, work)(r) <==>
            exists w, u :: w in work && u in users &&
              w.commentIdx == r.commentIdx && w.post == Some(post) && u.userIdx == r.userIdx &&
              row == ReplyRow(r, u, w)
  {
    var answered := Filter(work, Answers(post, r));
    FlatMapMembers(answered, Joined(users, r), row);
    forall w | w in answered
      ensures row in Joined(users, r)(w) <==>
              exists u :: u in users && u.userIdx == r.userIdx && row == ReplyRow(r, u, w)
    {
      MapMembers(Lookup(users, UserKey, Some(r.userIdx)), (u: User) => ReplyRow(r, u, w), row);
    }
  }

  lemma ArmMembers(users: seq<User>, replies: seq<Reply>, post: int, work: seq<Row>, row: Row)
    ensures row in Arm(users, replies, post, work) <==>
            exists r, w, u :: r in replies && w in work && u in users &&
              w.commentIdx == r.commentIdx && w.post == Some(post) && u.userIdx == r.userIdx &&
              row == ReplyRow(r, u, w)
  {
    FlatMapMembers(replies, ArmOf(users, post, work), row);
    forall r {:trigger r in replies} | r in replies {
      ArmOfMembers(users, post, work, r, row);
    }
  }

  /** How many more rounds the recursion can take. */
  function Rounds(post: int, work: seq<Row>): nat {
    if work == [] then 0
    else if exists w :: w in work && w.post == Some(post) then 2
    else 1
  }

  lemma ArmShrinks(users: seq<User>, replies: seq<Reply>, post: int, work: seq<Row>)
    requires work != []
    ensures Rounds(post, Arm(users, replies, post, work)) < Rounds(post, work)
  {
    var next := Arm(users, replies, post, work);
    forall row | row in next
      ensures row.post == None && exists w :: w in work && w.post == Some(post)
    {
      ArmMembers(users, replies, post, work, row);
    }
    EmptyOrMember(next);
  }

  /** `with recursive`: the arm is applied to the rows of the previous round until a round
      adds nothing.  It ends because added rows carry no post id. */
  function Iterate(users: seq<User>, replies: seq<Reply>, post: int, work: seq<Row>): seq<Row>
    decreases Rounds(post, work)
  {
    if work == [] then []
    else
      ArmShrinks(users, replies, post, work);
      work + Iterate(users, replies, post, Arm(users, replies, post, work))
  }

  /** The recursion is a single join: every round after the first adds nothing. */
  lemma IterateIsJoin(users: seq<User>, replies: seq<Reply>, post: int, anchor: seq<Row>)
    ensures Iterate(users, replies, post, anchor) == anchor + Arm(users, replies, post, anchor)
  {
    var next := Arm(users, replies, post, anchor);
    if anchor == [] {
      forall row | row in next ensures false {
        ArmMembers(users, replies, post, anchor, row);
      }
      EmptyOrMember(next);
    } else if next != [] {
      var last := Arm(users, replies, post, next);
      forall row | row in last ensures false {
        ArmMembers(users, replies, post, next, row);
        var w :| w in next && w.post == Some(post);
        ArmMembers(users, replies, post, anchor, w);
      }
      EmptyOrMember(last);
      assert Iterate(users, replies, post, next) == next + [];
    }
  }

  // ----- what the list shows -----

  function Shown(row: Row): Entry {
    match row.post
    case Some(post) => OfComment(Comment(row.commentIdx, row.userIdx, row.content, row.date, post))
    case None => OfReply(Reply(row.replyIdx, row.commentIdx, row.userIdx, row.content, row.date))
  }

  function CommentEntry(c: Comment): Entry { OfComment(c) }
  function ReplyEntry(r: Reply): Entry { OfReply(r) }

  /** r answers one of the post's comments. */
  function ToPost(comments: seq<Comment>, post: int): Reply -> bool {
    (r: Reply) => exists c :: c in comments && c.commentIdx == r.commentIdx && c.post == post
  }

  /** The first arm's rows show the authored comments of the post, each under its own sort
      key. */
  ghost predicate AnchorFor(anchor: seq<Row>, authored: seq<Authored>, post: int) {
    && |anchor| == |authored|
    && (forall i :: 0 <= i < |anchor| ==>
         && anchor[i].post == Some(post)
         && Shown(anchor[i]) == OfComment(authored[i].comment)
         && anchor[i].id == authored[i].id)
    && Unique(anchor, RowOrd)
  }

  lemma AuthoredMembers(users: seq<User>, comments: seq<Comment>, post: int, a: Authored)
    ensures a in AuthoredOf(users, comments, post) <==>
            a.comment in comments && a.comment.post == post && User(a.comment.userIdx, a.id) in users
  {
    var cs := Filter(comments, OfPost(post));
    FlatMapMembers(cs, WithAuthor(users), a);
    forall c | c in cs
      ensures a in WithAuthor(users)(c) <==> c == a.comment && User(c.userIdx, a.id) in users
    {
      MapMembers(Lookup(users, UserKey, Some(c.userIdx)), (u: User) => Authored(c, u.id), a);
      if c == a.comment && User(c.userIdx, a.id) in users {
        assert User(c.userIdx, a.id) in Lookup(users, UserKey, Some(c.userIdx));
      }
    }
  }

  /** Each comment with an author is listed once. */
  lemma AuthoredComments(users: seq<User>, comments: seq<Comment>, post: int)
    requires Unique(users, UserKey) && Unique(comments, CommentKey)
    ensures Map(AuthoredOf(users, comments, post), AuthoredComment) ==
            Filter(Filter(comments, OfPost(post)), NonEmpty(WithAuthor(users)))
    ensures Unique(AuthoredOf(users, comments, post), AuthoredThread)
    ensures NoDuplicates(AuthoredOf(users, comments, post))
  {
    var cs := Filter(comments, OfPost(post));
    var authored := AuthoredOf(users, comments, post);
    forall c ensures |WithAuthor(users)(c)| <= 1 {
      LookupUnique(users, UserKey, Some(c.userIdx));
    }
    var id := (c: Comment) => c;
    JoinSelects(cs, WithAuthor(users), id, AuthoredComment);
    var kept := Filter(cs, NonEmpty(WithAuthor(users)));
    assert Map(kept, id) == kept;
    FilterUnique(comments, OfPost(post), CommentKey);
    FilterUnique(cs, NonEmpty(WithAuthor(users)), CommentKey);
    forall i, j | 0 <= i < j < |authored| ensures AuthoredThread(authored[i]) != AuthoredThread(authored[j]) {
      assert Map(authored, AuthoredComment)[i] == kept[i] && Map(authored, AuthoredComment)[j] == kept[j];
      assert CommentKey(kept[i]) != CommentKey(kept[j]);
    }
  }

  /** Each reply to a listed comment, if its author exists, is joined exactly once. */
  lemma ArmReplies(users: seq<User>, replies: seq<Reply>, post: int, anchor: seq<Row>)
    requires Unique(users, UserKey) && Unique(anchor, RowThread)
    ensures Map(Arm(users, replies, post, anchor), Shown) ==
            Map(Filter(replies, NonEmpty(ArmOf(users, post, anchor))), ReplyEntry)
  {
    forall r ensures |ArmOf(users, post, anchor)(r)| <= 1 {
      var answered := Filter(anchor, Answers(post, r));
      FilterUnique(anchor, Answers(post, r), RowThread);
      SameKey(answered, RowThread, r.commentIdx);
      LookupUnique(users, UserKey, Some(r.userIdx));
      FlatMapAtMostOne(answered, Joined(users, r));
    }
    forall r, row | r in replies && row in ArmOf(users, post, anchor)(r)
      ensures Shown(row) == ReplyEntry(r)
    {
      ArmOfMembers(users, post, anchor, r, row);
    }
    JoinSelects(replies, ArmOf(users, post, anchor), ReplyEntry, Shown);
  }

  lemma SameKey<T(!new), K(!new)>(s: seq<T>, key: T -> K, k: K)
    requires Unique(s, key) && forall x :: x in s ==> key(x) == k
    ensures |s| <= 1
  {
    LookupUnique(s, key, Some(k));
    FilterAll(s, Equals(key, Some(k)));
  }

  lemma AnchorThreads(anchor: seq<Row>, authored: seq<Authored>, post: int)
    requires AnchorFor(anchor, authored, post) && Unique(authored, AuthoredThread)
    ensures Unique(anchor, RowThread)
  {
    forall i, j | 0 <= i < j < |anchor| ensures RowThread(anchor[i]) != RowThread(anchor[j]) {
      assert AuthoredThread(authored[i]) != AuthoredThread(authored[j]);
      assert Shown(anchor[i]) == OfComment(authored[i].comment);
      assert Shown(anchor[j]) == OfComment(authored[j].comment);
    }
  }

  /** Foreign keys are intact: whoever wrote a comment or reply exists. */
  ghost predicate AuthorsExist(users: seq<User>, comments: seq<Comment>, replies: seq<Reply>) {
    && (forall c :: c in comments ==> exists u :: u in users && u.userIdx == c.userIdx)
    && (forall r :: r in replies ==> exists u :: u in users && u.userIdx == r.userIdx)
  }

  lemma LookupFinds<T(!new), K(!new)>(s: seq<T>, key: T -> K, x: Option<K>)
    ensures Lookup(s, key, x) != [] <==> exists t :: t in s && x == Some(key(t))
  {
    EmptyOrMember(Lookup(s, key, x));
  }

  /** The list is a permutation of the post's comments and all the replies to them. */
  lemma ListIsPermutation(users: seq<User>, comments: seq<Comment>, replies: seq<Reply>, post: int,
                          anchor: seq<Row>, out: seq<Row>)
    requires Unique(users, UserKey) && Unique(comments, CommentKey)
    requires AuthorsExist(users, comments, replies)
    requires AnchorFor(anchor, AuthoredOf(users, comments, post), post)
    requires multiset(out) == multiset(Iterate(users, replies, post, anchor))
    ensures multiset(Map(out, Shown)) ==
            multiset(Map(Filter(comments, OfPost(post)), CommentEntry) +
                     Map(Filter(replies, ToPost(comments, post)), ReplyEntry))
  {
    var authored := AuthoredOf(users, comments, post);
    var cs := Filter(comments, OfPost(post));
    var arm := Arm(users, replies, post, anchor);
    IterateIsJoin(users, replies, post, anchor);
    MapPermutes(out, anchor + arm, Shown);
    assert Map(anchor + arm, Shown) == Map(anchor, Shown) + Map(arm, Shown);

    AuthoredComments(users, comments, post);
    forall c | c in cs ensures WithAuthor(users)(c) != [] {
      LookupFinds(users, UserKey, Some(c.userIdx));
    }
    FilterAll(cs, NonEmpty(WithAuthor(users)));
    assert Map(anchor, Shown) == Map(cs, CommentEntry) by {
      forall i | 0 <= i < |anchor| ensures Shown(anchor[i]) == CommentEntry(cs[i]) {
        assert cs[i] == Map(authored, AuthoredComment)[i] == authored[i].comment;
      }
    }

    AnchorThreads(anchor, authored, post);
    ArmReplies(users, replies, post, anchor);
    forall r | r in replies
      ensures NonEmpty(ArmOf(users, post, anchor))(r) == ToPost(comments, post)(r)
    {
      AnswersComment(users, comments, post, anchor, r);
    }
    FilterAgree(replies, NonEmpty(ArmOf(users, post, anchor)), ToPost(comments, post));
  }

  lemma AnswersComment(users: seq<User>, comments: seq<Comment>, post: int, anchor: seq<Row>, r: Reply)
    requires AnchorFor(anchor, AuthoredOf(users, comments, post), post)
    requires exists u :: u in users && u.userIdx == r.userIdx
    requires forall c :: c in comments ==> exists u :: u in users && u.userIdx == c.userIdx
    ensures ArmOf(users, post, anchor)(r) != [] <==> ToPost(comments, post)(r)
  {
    if ToPost(comments, post)(r) {
      var c :| c in comments && c.commentIdx == r.commentIdx && c.post == post;
      var author :| author in users && author.userIdx == c.userIdx;
      var w := AnchorOf(users, comments, post, anchor, Authored(c, author.id));
      var u :| u in users && u.userIdx == r.userIdx;
      ArmOfMembers(users, post, anchor, r, ReplyRow(r, u, w));
    }
    forall row | row in ArmOf(users, post, anchor)(r) ensures ToPost(comments, post)(r) {
      ArmOfMembers(users, post, anchor, r, row);
      var w :| w in anchor && w.commentIdx == r.commentIdx;
      var c := CommentOf(users, comments, post, anchor, w);
    }
    EmptyOrMember(ArmOf(users, post, anchor)(r));
  }

  lemma AnchorOf(users: seq<User>, comments: seq<Comment>, post: int, anchor: seq<Row>, a: Authored)
    returns (w: Row)
    requires AnchorFor(anchor, AuthoredOf(users, comments, post), post)
    requires a.comment in comments && a.comment.post == post && User(a.comment.userIdx, a.id) in users
    ensures w in anchor && w.post == Some(post) && Shown(w) == OfComment(a.comment)
  {
    AuthoredMembers(users, comments, post, a);
    var authored := AuthoredOf(users, comments, post);
    var i :| 0 <= i < |authored| && authored[i] == a;
    w := anchor[i];
  }

  lemma CommentOf(users: seq<User>, comments: seq<Comment>, post: int, anchor: seq<Row>, w: Row)
    returns (c: Comment)
    requires AnchorFor(anchor, AuthoredOf(users, comments, post), post)
    requires w in anchor
    ensures c in comments && c.post == post && Shown(w) == OfComment(c)
  {
    var authored := AuthoredOf(users, comments, post);
    var i :| 0 <= i < |anchor| && anchor[i] == w;
    AuthoredMembers(users, comments, post, authored[i]);
    c := authored[i].comment;
  }

  /** Every row is signed with the id of the user who wrote what it shows. */
  lemma RowsSigned(users: seq<User>, comments: seq<Comment>, replies: seq<Reply>, post: int, anchor: seq<Row>, row: Row)
    requires AnchorFor(anchor, AuthoredOf(users, comments, post), post)
    requires row in Iterate(users, replies, post, anchor)
    ensures User(row.userIdx, row.id) in users
  {
    IterateIsJoin(users, replies, post, anchor);
    if row in anchor {
      var i :| 0 <= i < |anchor| && anchor[i] == row;
      var a := AuthoredOf(users, comments, post)[i];
      AuthoredMembers(users, comments, post, a);
      assert Shown(row) == OfComment(a.comment) && row.id == a.id;
    } else {
      ArmMembers(users, replies, post, anchor, row);
    }
  }

  // ----- the order of the list -----

  /** `order by ord, date` */
  predicate RowLe(a: Row, b: Row) {
    Before(a.ord, b.ord) || (a.ord == b.ord && a.date <= b.date)
  }

  lemma RowLeTotal()
    ensures TotalPreorder(RowLe)
  {
    forall a: Row, b: Row ensures RowLe(a, b) || RowLe(b, a) {
      BeforeTotal(a.ord, b.ord);
    }
    forall a: Row, b: Row, c: Row | RowLe(a, b) && RowLe(b, c) ensures RowLe(a, c) {
      if Before(a.ord, b.ord) && Before(b.ord, c.ord) {
        BeforeTransitive(a.ord, b.ord, c.ord);
      }
    }
  }

  /** Every row belongs to the thread of one first-arm row and sorts under its key. */
  lemma RowInThread(users: seq<User>, replies: seq<Reply>, post: int, anchor: seq<Row>, row: Row)
    returns (head: Row)
    requires row in Iterate(users, replies, post, anchor)
    requires forall w :: w in anchor ==> w.post == Some(post)
    ensures head in anchor && head.commentIdx == row.commentIdx && head.ord == row.ord
    ensures row.post.Some? ==> row == head
  {
    IterateIsJoin(users, replies, post, anchor);
    if row in anchor {
      head := row;
    } else {
      ArmMembers(users, replies, post, anchor, row);
      head :| head in anchor && head.commentIdx == row.commentIdx && row.ord == head.ord && row.post == None;
    }
  }

  ghost predicate Contiguous(out: seq<Row>) {
    forall i, j, k :: 0 <= i < j < k < |out| && out[i].commentIdx == out[k].commentIdx ==>
      out[j].commentIdx == out[i].commentIdx
  }

  /** Threads are never interleaved. */
  lemma ThreadsContiguous(users: seq<User>, replies: seq<Reply>, post: int, anchor: seq<Row>, out: seq<Row>)
    requires Unique(anchor, RowOrd) && Unique(anchor, RowThread)
    requires forall w :: w in anchor ==> w.post == Some(post)
    requires Arrangement(Iterate(users, replies, post, anchor), out, RowLe)
    ensures Contiguous(out)
  {
    var all := Iterate(users, replies, post, anchor);
    ArrangementMembers(all, out, RowLe);
    forall i, j, k | 0 <= i < j < k < |out| && out[i].commentIdx == out[k].commentIdx
      ensures out[j].commentIdx == out[i].commentIdx
    {
      var a := RowInThread(users, replies, post, anchor, out[i]);
      var b := RowInThread(users, replies, post, anchor, out[j]);
      var c := RowInThread(users, replies, post, anchor, out[k]);
      assert a == c by { SameRow(anchor, RowThread, a, c); }
      assert RowLe(out[i], out[j]) && RowLe(out[j], out[k]);
      BeforeTotal(out[i].ord, out[j].ord);
      SameRow(anchor, RowOrd, a, b);
    }
  }

  /** No reply stands before the comment it answers. */
  ghost predicate HeadsItsThread(out: seq<Row>, head: Row) {
    forall i, j :: 0 <= i < j < |out| && out[j] == head && out[i].post.None? ==>
      out[i].commentIdx != head.commentIdx
  }

  /** A comment heads its block in every arrangement when all its replies are dated after
      it, and in no arrangement when some reply is dated before it. */
  lemma CommentHeadsThread(users: seq<User>, replies: seq<Reply>, post: int, anchor: seq<Row>, out: seq<Row>, head: Row)
    requires Unique(anchor, RowThread)
    requires forall w :: w in anchor ==> w.post == Some(post)
    requires Arrangement(Iterate(users, replies, post, anchor), out, RowLe)
    requires head in anchor
    ensures (forall row :: row in out && row.post.None? && row.commentIdx == head.commentIdx ==> head.date < row.date)
            ==> HeadsItsThread(out, head)
    ensures (exists row :: row in out && row.post.None? && row.commentIdx == head.commentIdx && row.date < head.date)
            ==> !HeadsItsThread(out, head)
  {
    ThreadSharesOrd(users, replies, post, anchor, out, head);
    BeforeTotal(head.ord, head.ord);
    if row :| row in out && row.post.None? && row.commentIdx == head.commentIdx && row.date < head.date {
      var i :| 0 <= i < |out| && out[i] == row;
      var j :| 0 <= j < |out| && out[j] == head;
      assert !RowLe(out[j], out[i]);
    }
  }

  lemma ThreadSharesOrd(users: seq<User>, replies: seq<Reply>, post: int, anchor: seq<Row>, out: seq<Row>, head: Row)
    requires Unique(anchor, RowThread)
    requires forall w :: w in anchor ==> w.post == Some(post)
    requires Arrangement(Iterate(users, replies, post, anchor), out, RowLe)
    requires head in anchor
    ensures head in out
    ensures forall row :: row in out && row.commentIdx == head.commentIdx ==> row.ord == head.ord
  {
    var all := Iterate(users, replies, post, anchor);
    ArrangementMembers(all, out, RowLe);
    assert head in all by { IterateIsJoin(users, replies, post, anchor); }
    forall row | row in out && row.commentIdx == head.commentIdx ensures row.ord == head.ord {
      var other := RowInThread(users, replies, post, anchor, row);
      SameRow(anchor, RowThread, other, head);
    }
  }
}
