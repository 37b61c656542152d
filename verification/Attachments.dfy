/** What users attach to listings and cars: comments and replies (insSellComment.php,
    insSellRecomment.php, delSellComment.php), labels and bumps (insLabel.php), bookmarks
    (insBookmark.php, delBookmark.php), options (insOption.php), views (insHistory.php) and
    ledger rows (addDist.php, addOil.php, addMaintain.php, insCrash.php, insCenRev.php). */
module Attachments {
  import opened Relational
  import opened Market
  import opened Listings
  import opened Bump

  datatype Write = Commenting(comment: Comment)
                 | Answering(reply: Reply)
                 | Uncommenting(commentIdx: int)
                 | Unanswering(replyIdx: int)
                 | Labelling(added: Additional)
                 | Bookmarking(mark: Bookmark)
                 | Unbookmarking(mark: Bookmark)
                 | Optioning(tag: Tagged)
                 | Viewing(tag: Tagged)
                 | Noting(note: Noted)
                 | Erasing(note: Noted)

  /** insSellComment.php: the key is the server's; one that is in use is refused. */
  function AddComment(s: State, c: Comment): State {
    if Lookup(s.comments, CommentKey, Some(c.commentIdx)) != [] then s else s.(comments := s.comments + [c])
  }

  /** insHistory.php: one row for each visitor; only its date changes later. */
  function AddView(s: State, g: Tagged): State {
    if g in s.history then s else s.(history := s.history + [g])
  }

  function Attach(s: State, w: Write): State {
    match w
    case Commenting(comment) => AddComment(s, comment)
    case Answering(reply) => s.(replies := s.replies + [reply])
    case Uncommenting(commentIdx) => WithoutSellComment(s, commentIdx)
    case Unanswering(replyIdx) => WithoutSellReply(s, replyIdx)
    case Labelling(added) => s.(t := s.t.(additional := s.t.additional + [added]))
    case Bookmarking(mark) => s.(t := s.t.(bookmarks := s.t.bookmarks + [mark]))
    case Unbookmarking(mark) => s.(t := s.t.(bookmarks := Delete(s.t.bookmarks, Same, mark)))
    case Optioning(tag) => s.(options := s.options + [tag])
    case Viewing(tag) => AddView(s, tag)
    case Noting(note) => s.(ledger := s.ledger + [note])
    case Erasing(note) => s.(ledger := Delete(s.ledger, Same, note))
  }

  /** insLabel.php with index "999". */
  function BumpListing(s: State, sellIdx: int, now: int): State {
    if Lookup(s.updates, UpdateSell, Some(sellIdx)) == [] then s.(updates := s.updates + [Update(sellIdx, now)])
    else s.(t := Bumped(s.t, sellIdx, now), updates := Map(s.updates, Redated(sellIdx, now)))
  }

  /** What is written is attached to something that exists. */
  ghost predicate Attached(s: State, w: Write) {
    match w
    case Commenting(comment) => CommentExists(s, comment.commentIdx) || HasListing(s.t, comment.sellIdx)
    case Answering(reply) => CommentExists(s, reply.commentIdx)
    case Uncommenting(_) => true
    case Unanswering(_) => true
    case Labelling(added) => HasListing(s.t, added.sellIdx)
    case Bookmarking(mark) => HasListing(s.t, mark.sellIdx)
    case Unbookmarking(_) => true
    case Optioning(tag) => HasListing(s.t, tag.sellIdx)
    case Viewing(tag) => HasListing(s.t, tag.sellIdx)
    case Noting(note) => CarExists(s.t, note.carIdx)
    case Erasing(_) => true
  }

  /** An insert adds its row, once, to its table; a row of a visitor or a comment's key is not
      added twice; a deletion takes the rows named and no others. */
  lemma AttachWrites(s: State, w: Write)
    ensures var s' := Attach(s, w);
            match w
            case Commenting(c) =>
              if CommentExists(s, c.commentIdx) then s' == s else s' == s.(comments := s.comments + [c])
            case Answering(r) => s' == s.(replies := s.replies + [r])
            case Uncommenting(x) =>
              && s' == s.(comments := s'.comments, replies := s'.replies)
              && (forall c :: c in s'.comments <==> c in s.comments && c.commentIdx != x)
              && (forall r :: r in s'.replies <==> r in s.replies && r.commentIdx != x)
            case Unanswering(x) =>
              && s' == s.(replies := s'.replies)
              && (forall r :: r in s'.replies <==> r in s.replies && r.replyIdx != x)
            case Labelling(a) => s' == s.(t := s.t.(additional := s.t.additional + [a]))
            case Bookmarking(b) => s' == s.(t := s.t.(bookmarks := s.t.bookmarks + [b]))
            case Unbookmarking(b) =>
              && s' == s.(t := s.t.(bookmarks := s'.t.bookmarks))
              && (forall x :: x in s'.t.bookmarks <==> x in s.t.bookmarks && x != b)
            case Optioning(g) => s' == s.(options := s.options + [g])
            case Viewing(g) => s' == if g in s.history then s else s.(history := s.history + [g])
            case Noting(n) => s' == s.(ledger := s.ledger + [n])
            case Erasing(n) =>
              && s' == s.(ledger := s'.ledger)
              && (forall x :: x in s'.ledger <==> x in s.ledger && x != n)
  {
    if w.Commenting? {
      EmptyOrMember(Lookup(s.comments, CommentKey, Some(w.comment.commentIdx)));
    }
  }

  /** An attachment changes only the tables of attachments. */
  lemma AttachFrame(s: State, w: Write)
    ensures var s' := Attach(s, w);
            && s'.t == s.t.(additional := s'.t.additional, bookmarks := s'.t.bookmarks)
            && s'.owners == s.owners && s'.carImgs == s.carImgs && s'.files == s.files
            && s'.users == s.users && s'.refer == s.refer && s'.updates == s.updates
  {
  }

  lemma CommentIntact(s: State, c: Comment)
    requires Intact(s)
    ensures Intact(AddComment(s, c)) <==> CommentExists(s, c.commentIdx) || HasListing(s.t, c.sellIdx)
  {
    EmptyOrMember(Lookup(s.comments, CommentKey, Some(c.commentIdx)));
    InsertReferring(s.comments, c, CommentSell, s.t.listings, ListingKey);
    RefersToMore(s.replies, ReplyComment, s.comments, s.comments + [c], CommentKey);
  }

  lemma ViewIntact(s: State, g: Tagged)
    requires Intact(s)
    ensures Intact(AddView(s, g)) <==> HasListing(s.t, g.sellIdx)
  {
    InsertReferring(s.history, g, TaggedSell, s.t.listings, ListingKey);
    assert g in s.history ==> HasKey(s.t.listings, ListingKey, TaggedSell(g));
  }

  /** An attachment keeps all references intact exactly when it is attached. */
  lemma AttachIntact(s: State, w: Write)
    requires Intact(s)
    ensures Intact(Attach(s, w)) <==> Attached(s, w)
  {
    match w
    case Commenting(comment) => CommentIntact(s, comment);
    case Answering(reply) => InsertReferring(s.replies, reply, ReplyComment, s.comments, CommentKey);
    case Uncommenting(commentIdx) => SellCommentDeletion(s, commentIdx);
    case Unanswering(_) =>
    case Labelling(added) => InsertReferring(s.t.additional, added, AdditionalKey, s.t.listings, ListingKey);
    case Bookmarking(mark) => InsertReferring(s.t.bookmarks, mark, BookmarkSell, s.t.listings, ListingKey);
    case Unbookmarking(_) =>
    case Optioning(tag) => InsertReferring(s.options, tag, TaggedSell, s.t.listings, ListingKey);
    case Viewing(tag) => ViewIntact(s, tag);
    case Noting(note) => InsertReferring(s.ledger, note, NotedCar, s.t.cars, CarKey);
    case Erasing(_) =>
  }

  lemma AttachUnique(s: State, w: Write)
    requires Unique(s.comments, CommentKey)
    ensures Unique(Attach(s, w).comments, CommentKey)
  {
    if w.Commenting? {
      var found := Lookup(s.comments, CommentKey, Some(w.comment.commentIdx));
      assert forall c :: c in s.comments && CommentKey(c) == w.comment.commentIdx ==> c in found;
    }
    if w.Uncommenting? {
      FilterUnique(s.comments, Not(Having(CommentKey, w.commentIdx)), CommentKey);
    }
  }

  lemma BumpedTags(s: State, sellIdx: int, now: int)
    requires ListingsIntact(s)
    ensures ListingsIntact(s.(t := Bumped(s.t, sellIdx, now), updates := Map(s.updates, Redated(sellIdx, now))))
  {
    var h := Redate(sellIdx, now);
    RefersToMapped(s.t.additional, AdditionalKey, s.t.listings, h, ListingKey);
    RefersToMapped(s.t.bookmarks, BookmarkSell, s.t.listings, h, ListingKey);
    RefersToMapped(s.options, TaggedSell, s.t.listings, h, ListingKey);
    RefersToMapped(s.history, TaggedSell, s.t.listings, h, ListingKey);
    RefersToMapped(s.updates, UpdateSell, s.t.listings, h, ListingKey);
    RefersFromMapped(s.updates, Redated(sellIdx, now), UpdateSell, Dated(s.t.listings, sellIdx, now), ListingKey);
    RefersToMapped(s.comments, CommentSell, s.t.listings, h, ListingKey);
    RefersToMapped(s.t.trades, TradeSell, s.t.listings, h, ListingKey);
  }

  /** A bump keeps them intact exactly when the listing exists. */
  lemma BumpIntact(s: State, sellIdx: int, now: int)
    requires Intact(s)
    ensures Intact(BumpListing(s, sellIdx, now)) <==> HasListing(s.t, sellIdx)
  {
    var found := Lookup(s.updates, UpdateSell, Some(sellIdx));
    if found == [] {
      InsertReferring(s.updates, Update(sellIdx, now), UpdateSell, s.t.listings, ListingKey);
    } else {
      assert found[0] in found && found[0] in s.updates;
      BumpedTags(s, sellIdx, now);
      RefersFromMapped(s.t.listings, Redate(sellIdx, now), ListingCar, s.t.cars, CarKey);
      assert HasKey(s.t.listings, ListingKey, UpdateSell(found[0]));
    }
  }

  /** An image of a car keeps them intact exactly when it is the car's own or the car exists. */
  lemma UploadIntact(s: State, carIdx: nat, flag: nat)
    requires Intact(s)
    ensures Intact(AddCarImage(s, carIdx, flag)) <==> flag == 0 || CarExists(s.t, carIdx)
  {
    var name := Images.ImageName("car/", carIdx, flag);
    var h := WithImage(carIdx, name);
    if flag == 0 {
      RefersToMapped(s.t.listings, ListingCar, s.t.cars, h, CarKey);
      RefersToMapped(s.owners, OwnerCar, s.t.cars, h, CarKey);
      RefersToMapped(s.carImgs, ImgCar, s.t.cars, h, CarKey);
      RefersToMapped(s.ledger, NotedCar, s.t.cars, h, CarKey);
    } else {
      InsertReferring(s.carImgs, CarImg(carIdx, name), ImgCar, s.t.cars, CarKey);
    }
  }
}
