/** Previous and next post of a board type (chgBoard.php). */
module BoardNavigation {
  import opened Relational
  import opened Mysqli

  datatype Board = Board(boardIdx: int, boardType: int, date: int)
  datatype BoardType = BoardType(boardType: int, name: string)

  function BoardKey(b: Board): int { b.boardIdx }
  function BoardTypeOf(b: Board): int { b.boardType }
  function TypeName(y: BoardType): string { y.name }

  /** One row of the answer: LEAD and LAG of the post asked for. */
  datatype Neighbours = Neighbours(next: Option<int>, pre: Option<int>)

  /** The posts of the named type; an unknown name is null and matches nothing. */
  function OfType(boards: seq<Board>, types: seq<BoardType>, name: string): seq<Board> {
    var found := Lookup(types, TypeName, Some(name));
    Lookup(boards, BoardTypeOf, if found == [] then None else Some(found[0].boardType))
  }

  predicate Earlier(a: Board, b: Board) {
    a.date <= b.date
  }

  function Ids(order: seq<Board>): seq<int> {
    Map(order, BoardKey)
  }

  /** `lead(board_idx, 1)` for the post at position i. */
  function Lead(ids: seq<int>, i: nat): Option<int>
    requires i < |ids|
  {
    if i + 1 < |ids| then Some(ids[i + 1]) else None
  }

  function Lag(ids: seq<int>, i: nat): Option<int>
    requires i < |ids|
  {
    if i > 0 then Some(ids[i - 1]) else None
  }

  function Next(ids: seq<int>, boardIdx: int): Option<int> {
    if boardIdx in ids then Lead(ids, Position(ids, boardIdx)) else None
  }

  function Pre(ids: seq<int>, boardIdx: int): Option<int> {
    if boardIdx in ids then Lag(ids, Position(ids, boardIdx)) else None
  }

  /** The window order, with ties broken in any one way. */
  ghost predicate IsOrder(boards: seq<Board>, types: seq<BoardType>, name: string, order: seq<Board>) {
    Arrangement(OfType(boards, types, name), order, Earlier)
  }

  /** The answer for a post, given the window order. */
  function Answer(ids: seq<int>, boardIdx: int): seq<Neighbours> {
    if boardIdx in ids then [Neighbours(Next(ids, boardIdx), Pre(ids, boardIdx))] else []
  }

  /** One row for a post of the order, with the ids after and before it, null at the ends; no
      row for any other post. */
  ghost predicate IsAnswer(order: seq<Board>, boardIdx: int, arr: seq<Neighbours>) {
    && (forall i :: 0 <= i < |order| && order[i].boardIdx == boardIdx ==>
         && |arr| == 1
         && arr[0].next == (if i + 1 < |order| then Some(order[i + 1].boardIdx) else None)
         && arr[0].pre == (if i > 0 then Some(order[i - 1].boardIdx) else None))
    && ((forall b :: b in order ==> b.boardIdx != boardIdx) ==> arr == [])
  }

  /** The posts of the named type, each once, by date. */
  ghost predicate IsTimeline(boards: seq<Board>, types: seq<BoardType>, name: string, order: seq<Board>) {
    && NoDuplicates(order)
    && (forall b :: b in order <==> b in boards && IsOfType(types, name, b))
    && (forall i, j :: 0 <= i < j < |order| ==> order[i].date <= order[j].date)
  }

  method ChgBoard(boards: seq<Board>, types: seq<BoardType>, name: string, boardIdx: int) returns (arr: seq<Neighbours>)
    ensures exists order :: IsOrder(boards, types, name, order) && arr == Answer(Ids(order), boardIdx)
    ensures Unique(boards, BoardKey) && Unique(types, TypeName) ==>
              exists order :: IsTimeline(boards, types, name, order) && IsAnswer(order, boardIdx, arr)
  {
    var posts := OfType(boards, types, name);
    assert TotalPreorder(Earlier);
    OrderByArranges(posts, Earlier);
    var order := OrderBy(posts, Earlier);
    var result := new ResultSet(Answer(Ids(order), boardIdx));
    arr := FetchAll(result);
    assert IsOrder(boards, types, name, order);
    if Unique(boards, BoardKey) && Unique(types, TypeName) {
      OrderIsTimeline(boards, types, name, order);
      AnswerIsAnswer(order, boardIdx);
      assert IsTimeline(boards, types, name, order) && IsAnswer(order, boardIdx, arr);
    }
  }

  lemma OrderIsTimeline(boards: seq<Board>, types: seq<BoardType>, name: string, order: seq<Board>)
    requires Unique(boards, BoardKey) && Unique(types, TypeName) && IsOrder(boards, types, name, order)
    ensures IsTimeline(boards, types, name, order) && NoDuplicates(Ids(order))
  {
    OrderDistinct(boards, types, name, order);
    ArrangementMembers(OfType(boards, types, name), order, Earlier);
    forall b ensures b in order <==> b in boards && IsOfType(types, name, b) {
      OfTypeMembers(boards, types, name, b);
    }
    forall i, j | 0 <= i < j < |order| ensures order[i].date <= order[j].date && order[i] != order[j] {
      assert Earlier(order[i], order[j]) && Ids(order)[i] != Ids(order)[j];
    }
  }

  lemma AnswerIsAnswer(order: seq<Board>, boardIdx: int)
    requires NoDuplicates(Ids(order))
    ensures IsAnswer(order, boardIdx, Answer(Ids(order), boardIdx))
  {
    var ids := Ids(order);
    forall i | 0 <= i < |order| && order[i].boardIdx == boardIdx
      ensures boardIdx in ids && Position(ids, boardIdx) == i
    {
      assert ids[i] == boardIdx;
      PositionAt(ids, i);
    }
    MapMembers(order, BoardKey, boardIdx);
  }

  /** Post ids in the window order do not repeat. */
  lemma OrderDistinct(boards: seq<Board>, types: seq<BoardType>, name: string, order: seq<Board>)
    requires Unique(boards, BoardKey) && IsOrder(boards, types, name, order)
    ensures NoDuplicates(Ids(order))
    ensures forall x :: x in Ids(order) <==> x in Ids(OfType(boards, types, name))
  {
    var posts := OfType(boards, types, name);
    var found := Lookup(types, TypeName, Some(name));
    FilterUnique(boards, Equals(BoardTypeOf, if found == [] then None else Some(found[0].boardType)), BoardKey);
    MapPermutes(posts, order, BoardKey);
    forall i, j | 0 <= i < j < |posts| ensures Ids(posts)[i] != Ids(posts)[j] {
      assert BoardKey(posts[i]) != BoardKey(posts[j]);
    }
    NoDuplicatesPermutes(Ids(posts), Ids(order));
    forall x ensures x in Ids(order) <==> x in Ids(posts) {
      assert x in multiset(Ids(order)) <==> x in multiset(Ids(posts));
    }
  }

  lemma PositionAt(ids: seq<int>, i: nat)
    requires NoDuplicates(ids) && i < |ids|
    ensures Position(ids, ids[i]) == i
  {
    var p := Position(ids, ids[i]);
    assert ids[p] == ids[i];
    assert !(p < i) && !(i < p);
  }

  /** b is next to a exactly when a is previous to b. */
  lemma NextPreInverse(ids: seq<int>, a: int, b: int)
    requires NoDuplicates(ids) && a in ids && b in ids
    ensures Next(ids, a) == Some(b) <==> Pre(ids, b) == Some(a)
  {
    var i, j := Position(ids, a), Position(ids, b);
    if i + 1 < |ids| { PositionAt(ids, i + 1); }
    if j > 0 { PositionAt(ids, j - 1); }
  }

  lemma NextMoves(ids: seq<int>, i: nat)
    requires NoDuplicates(ids) && i < |ids|
    ensures Next(ids, ids[i]) == if i + 1 < |ids| then Some(ids[i + 1]) else None
    ensures i + 1 < |ids| ==> Position(ids, ids[i + 1]) == Position(ids, ids[i]) + 1
  {
    PositionAt(ids, i);
    if i + 1 < |ids| { PositionAt(ids, i + 1); }
  }

  /** The posts visited by following the answers' next column, from boardIdx until it is null. */
  function Visited(ids: seq<int>, boardIdx: int): seq<int>
    requires NoDuplicates(ids) && boardIdx in ids
    decreases |ids| - Position(ids, boardIdx)
  {
    NextMoves(ids, Position(ids, boardIdx));
    match Answer(ids, boardIdx)[0].next
    case None => [boardIdx]
    case Some(next) => [boardIdx] + Visited(ids, next)
  }

  lemma {:induction false} VisitedFrom(ids: seq<int>, i: nat)
    requires NoDuplicates(ids) && i < |ids|
    ensures Visited(ids, ids[i]) == ids[i..]
    decreases |ids| - i
  {
    NextMoves(ids, i);
    if i + 1 < |ids| {
      VisitedFrom(ids, i + 1);
    }
  }

  ghost predicate IsOfType(types: seq<BoardType>, name: string, b: Board) {
    exists y :: y in types && y.name == name && y.boardType == b.boardType
  }

  lemma OfTypeMembers(boards: seq<Board>, types: seq<BoardType>, name: string, b: Board)
    requires Unique(types, TypeName)
    ensures b in OfType(boards, types, name) <==> b in boards && IsOfType(types, name, b)
  {
    var found := Lookup(types, TypeName, Some(name));
    if found != [] {
      assert found[0] in found;
      forall y | y in types && y.name == name ensures y == found[0] {
        SameRow(types, TypeName, y, found[0]);
      }
    } else {
      forall y | y in types ensures y.name != name {
        assert y.name == name ==> y in found;
      }
    }
  }

  /** Following next from the oldest post visits every post of the type exactly once and
      then stops. */
  lemma VisitsEveryPostOnce(boards: seq<Board>, types: seq<BoardType>, name: string, order: seq<Board>)
    requires Unique(boards, BoardKey) && Unique(types, TypeName)
    requires IsOrder(boards, types, name, order) && order != []
    ensures NoDuplicates(Ids(order)) && Visited(Ids(order), order[0].boardIdx) == Ids(order)
    ensures forall b :: b in order <==> b in boards && IsOfType(types, name, b)
    ensures forall b :: b in order ==> order[0].date <= b.date
  {
    var posts := OfType(boards, types, name);
    OrderDistinct(boards, types, name, order);
    VisitedFrom(Ids(order), 0);
    ArrangementMembers(posts, order, Earlier);
    forall b ensures b in posts <==> b in boards && IsOfType(types, name, b) {
      OfTypeMembers(boards, types, name, b);
    }
    forall b | b in order ensures order[0].date <= b.date {
      var i :| 0 <= i < |order| && order[i] == b;
      assert i > 0 ==> Earlier(order[0], order[i]);
    }
  }
}
