/** Like toggles on posts and comments (chgReco.php, chgCmtReco.php) and the view that
    reports them (shBoard.php). */
module Likes {
  import opened Relational

  /** A row of reco or cmt_reco. */
  datatype Like = Like(userIdx: int, itemIdx: int)

  function LikeItem(l: Like): int { l.itemIdx }
  function LikeUser(l: Like): int { l.userIdx }

  predicate Liked(rows: seq<Like>, l: Like) {
    l in rows
  }

  /** shBoard.php: how many likes the item has, and how many of them are the viewer's. */
  function ViewCount(rows: seq<Like>, itemIdx: int): nat {
    |Lookup(rows, LikeItem, Some(itemIdx))|
  }

  function ViewState(rows: seq<Like>, l: Like): nat {
    |Lookup(rows, Same, Some(l))|
  }

  class Table {
    var rows: seq<Like>

    /** chgReco.php and chgCmtReco.php */
    method ChgReco(userIdx: int, itemIdx: int) returns (reco: nat, flag: nat)
      modifies this
      ensures rows == Toggle(old(rows), Like(userIdx, itemIdx))
      ensures reco == ViewCount(rows, itemIdx)
      ensures NoDuplicates(old(rows)) ==> NoDuplicates(rows) && flag == ViewState(rows, Like(userIdx, itemIdx))
      ensures NoDuplicates(old(rows)) ==> reco == |set l | l in rows && l.itemIdx == itemIdx :: l.userIdx|
      ensures flag == if Like(userIdx, itemIdx) in rows then 1 else 0
      ensures forall l :: l != Like(userIdx, itemIdx) ==> (l in rows <==> l in old(rows))
      ensures Like(userIdx, itemIdx) in rows <==> Like(userIdx, itemIdx) !in old(rows)
    {
      var own := Like(userIdx, itemIdx);
      var found := Lookup(rows, Same, Some(own));
      LookupOwn(rows, own);
      ToggleKeepsUnique(rows, own);
      flag := 0;
      if |found| != 0 {
        rows := Delete(rows, Same, own);
      } else {
        rows := rows + [own];
        flag := 1;
      }
      LookupOwn(rows, own);
      reco := |Lookup(rows, LikeItem, Some(itemIdx))|;
      if NoDuplicates(rows) {
        ViewCounts(rows, itemIdx);
      }
    }
  }

  lemma LookupOwn(rows: seq<Like>, l: Like)
    ensures Lookup(rows, Same, Some(l)) == [] <==> l !in rows
    ensures NoDuplicates(rows) ==> ViewState(rows, l) == if l in rows then 1 else 0
  {
    EmptyOrMember(Lookup(rows, Same, Some(l)));
    assert l in rows ==> l in Lookup(rows, Same, Some(l));
    if NoDuplicates(rows) {
      assert Unique(rows, Same);
      LookupUnique(rows, Same, Some(l));
    }
  }

  /** The count is of the users who like the item. */
  lemma ViewCounts(rows: seq<Like>, itemIdx: int)
    requires NoDuplicates(rows)
    ensures ViewCount(rows, itemIdx) == |set l | l in rows && l.itemIdx == itemIdx :: l.userIdx|
  {
    var p := Equals(LikeItem, Some(itemIdx));
    ImagesCounted(rows, p, LikeUser);
    assert Images(Filter(rows, p), LikeUser) == set l | l in rows && l.itemIdx == itemIdx :: l.userIdx;
  }

  /** A toggle keeps at most one row for each user and item. */
  lemma ToggleKeepsUnique(rows: seq<Like>, l: Like)
    ensures NoDuplicates(rows) ==> NoDuplicates(Toggle(rows, l))
  {
    if NoDuplicates(rows) {
      assert Unique(rows, Same);
      FilterUnique(rows, Not(Having(Same, l)), Same);
      if l in rows {
        forall i, j | 0 <= i < j < |Toggle(rows, l)| ensures Toggle(rows, l)[i] != Toggle(rows, l)[j] {
          assert Same(Toggle(rows, l)[i]) != Same(Toggle(rows, l)[j]);
        }
      }
    }
  }

  lemma ToggleFlips(rows: seq<Like>, o: Like, l: Like)
    ensures Liked(Toggle(rows, o), l) <==> (Liked(rows, l) <==> o != l)
  {
  }

  function ToggleAll(rows: seq<Like>, ops: seq<Like>): seq<Like>
    decreases ops
  {
    if ops == [] then rows else ToggleAll(Toggle(rows, ops[0]), ops[1..])
  }

  lemma CountHead(ops: seq<Like>, l: Like)
    requires ops != []
    ensures multiset(ops)[l] == multiset(ops[1..])[l] + if ops[0] == l then 1 else 0
  {
    assert ops == [ops[0]] + ops[1..];
  }

  lemma ParityStep(n: nat)
    ensures (n + 1) % 2 == 0 <==> n % 2 != 0
  {
  }

  /** After any sequence of toggles, by anyone on anything, a user likes an item exactly when
      the user's toggles of it came in odd number, or in even number on top of a like; and
      there is still at most one row each. */
  lemma {:induction false} LikedByParity(rows: seq<Like>, ops: seq<Like>, l: Like)
    requires NoDuplicates(rows)
    ensures NoDuplicates(ToggleAll(rows, ops))
    ensures Liked(ToggleAll(rows, ops), l) <==> (Liked(rows, l) <==> multiset(ops)[l] % 2 == 0)
    decreases ops
  {
    if ops == [] {
    } else {
      ToggleKeepsUnique(rows, ops[0]);
      ToggleFlips(rows, ops[0], l);
      CountHead(ops, l);
      ParityStep(multiset(ops[1..])[l]);
      LikedByParity(Toggle(rows, ops[0]), ops[1..], l);
    }
  }

  lemma {:induction false} DeleteOne(rows: seq<Like>, l: Like)
    requires NoDuplicates(rows)
    ensures multiset(Delete(rows, Same, l)) == multiset(rows) - multiset{l}
  {
    if rows == [] {
    } else {
      DeleteOne(rows[1..], l);
      assert rows == [rows[0]] + rows[1..];
      if rows[0] == l {
        assert l !in rows[1..];
        FilterAll(rows[1..], Not(Having(Same, l)));
      }
    }
  }

  /** Two toggles by the same user restore the table. */
  lemma ToggleTwiceRestores(rows: seq<Like>, l: Like)
    requires NoDuplicates(rows)
    ensures multiset(Toggle(Toggle(rows, l), l)) == multiset(rows)
  {
    ToggleKeepsUnique(rows, l);
    if l in rows {
      DeleteOne(rows, l);
      assert l in multiset(rows);
    } else {
      DeleteOne(rows + [l], l);
    }
  }

  lemma {:induction false} DeleteCount(rows: seq<Like>, l: Like, itemIdx: int)
    requires NoDuplicates(rows) && l in rows
    ensures ViewCount(Delete(rows, Same, l), itemIdx) == ViewCount(rows, itemIdx) -
            if l.itemIdx == itemIdx then 1 else 0
  {
    if rows[0] == l {
      assert l !in rows[1..];
      FilterAll(rows[1..], Not(Having(Same, l)));
    } else {
      assert rows == [rows[0]] + rows[1..];
      DeleteCount(rows[1..], l, itemIdx);
    }
  }

  /** A toggle moves the item's count by one, up or down, and no other item's. */
  lemma ToggleCounts(rows: seq<Like>, l: Like, itemIdx: int)
    requires NoDuplicates(rows)
    ensures ViewCount(Toggle(rows, l), itemIdx) ==
            ViewCount(rows, itemIdx) + if l.itemIdx != itemIdx then 0 else if l in rows then -1 else 1
  {
    if l in rows {
      DeleteCount(rows, l, itemIdx);
    } else {
      FilterConcat(rows, [l], Equals(LikeItem, Some(itemIdx)));
    }
  }
}
