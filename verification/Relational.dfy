/** Tables are sequences of rows.  This module holds the relational vocabulary the
    other modules share: selection, aggregation, ordering and grouping. */
module Relational {

  /** SQL NULL, and a PHP value that may be missing. */
  datatype Option<+T> = None | Some(value: T) {
    /** `ifnull(this, default)` */
    function GetOr(default: T): T {
      match this
      case Some(v) => v
      case None => default
    }
  }

  function Map<A, B>(s: seq<A>, f: A -> B): (r: seq<B>)
    ensures |r| == |s|
    ensures forall i :: 0 <= i < |s| ==> r[i] == f(s[i])
  {
    seq(|s|, i requires 0 <= i < |s| => f(s[i]))
  }

  /** `where p`: the rows that satisfy p, in table order. */
  function Filter<T(!new)>(s: seq<T>, p: T -> bool): (r: seq<T>)
    ensures forall x :: x in r <==> x in s && p(x)
    ensures |r| <= |s|
  {
    if s == [] then []
    else if p(s[0]) then [s[0]] + Filter(s[1..], p)
    else Filter(s[1..], p)
  }

  function Not<T>(p: T -> bool): T -> bool {
    x => !p(x)
  }

  function And<T>(p: T -> bool, q: T -> bool): T -> bool {
    x => p(x) && q(x)
  }

  /** The condition `key = k`. */
  function Having<T, K(==)>(key: T -> K, k: K): T -> bool {
    x => key(x) == k
  }

  /** A nested-loop join: the rows f yields for each row of s. */
  function FlatMap<A, B>(s: seq<A>, f: A -> seq<B>): seq<B> {
    if s == [] then [] else f(s[0]) + FlatMap(s[1..], f)
  }

  /** A left outer join never loses the row on its left. */
  function OrNull<T(!new)>(s: seq<T>): (r: seq<Option<T>>)
    ensures r != []
  {
    if s == [] then [None] else Map(s, x => Some(x))
  }

  predicate NoDuplicates<T(!new,==)>(s: seq<T>) {
    forall i, j :: 0 <= i < j < |s| ==> s[i] != s[j]
  }

  /** The column `key` is unique in the table. */
  ghost predicate Unique<T(!new), K(!new)>(s: seq<T>, key: T -> K) {
    forall i, j :: 0 <= i < j < |s| ==> key(s[i]) != key(s[j])
  }

  /** The rows whose key column equals x; NULL equals nothing. */
  function Lookup<T(!new), K(==)>(s: seq<T>, key: T -> K, x: Option<K>): (r: seq<T>)
    ensures forall t :: t in r <==> t in s && x == Some(key(t))
  {
    Filter(s, Equals(key, x))
  }

  function Equals<T(!new), K(==)>(key: T -> K, x: Option<K>): (p: T -> bool)
    ensures forall t :: p(t) <==> x == Some(key(t))
  {
    t => x == Some(key(t))
  }

  /** `delete from s where key = x` */
  function Delete<T(!new), K(==)>(s: seq<T>, key: T -> K, x: K): (r: seq<T>)
    ensures forall y :: y in r <==> y in s && key(y) != x
  {
    Filter(s, Not(Having(key, x)))
  }

  function Same<T>(x: T): T { x }

  /** Takes the row out if it is there, and puts it in if it is not. */
  function Toggle<T(!new,==)>(rows: seq<T>, x: T): seq<T> {
    if x in rows then Delete(rows, Same, x) else rows + [x]
  }

  function Add<T(!new)>(s: seq<T>, w: T -> int): int {
    if s == [] then 0 else w(s[0]) + Add(s[1..], w)
  }

  /** SQL `sum(w)`: NULLs are skipped, and the sum of nothing is NULL. */
  function SqlSum<T(!new)>(s: seq<T>, w: T -> Option<int>): Option<int> {
    if s == [] then None
    else
      var rest := SqlSum(s[1..], w);
      match w(s[0])
      case None => rest
      case Some(v) => Some(v + rest.GetOr(0))
  }

  /** SQL `max(w)` over a not-null column: NULL over nothing. */
  function SqlMax<T(!new)>(s: seq<T>, w: T -> int): (r: Option<int>)
    ensures r.None? <==> s == []
    ensures r.Some? ==> exists x :: x in s && w(x) == r.value
    ensures r.Some? ==> forall x :: x in s ==> w(x) <= r.value
  {
    if s == [] then None
    else
      var rest := SqlMax(s[1..], w);
      assert s[0] in s;
      if rest.Some? && w(s[0]) < rest.value then rest else Some(w(s[0]))
  }

  /** `max(key) + 1`, null over nothing. */
  function MaxPlusOne<T(!new)>(s: seq<T>, key: T -> int): (n: Option<int>)
    ensures n.None? <==> s == []
    ensures n.Some? ==> exists x :: x in s && key(x) == n.value - 1
    ensures n.Some? ==> forall x :: x in s ==> key(x) < n.value
  {
    var max := SqlMax(s, key);
    if max.None? then None else Some(max.value + 1)
  }

  /** `ifnull(max(key) + 1, 1)` */
  function NextId<T(!new)>(s: seq<T>, key: T -> int): (n: int)
    ensures forall x :: x in s ==> key(x) < n
  {
    MaxPlusOne(s, key).GetOr(1)
  }

  /** One occurrence of each value, in order of first appearance. */
  function Distinct<T(!new,==)>(s: seq<T>): (r: seq<T>)
    ensures NoDuplicates(r)
    ensures forall x :: x in r <==> x in s
  {
    if s == [] then []
    else
      var rest := Distinct(s[..|s|-1]);
      var last := s[|s|-1];
      assert s == s[..|s|-1] + [last];
      if last in rest then rest else rest + [last]
  }

  /** Position of the first occurrence. */
  function Position<T(!new,==)>(s: seq<T>, x: T): (i: nat)
    requires x in s
    ensures i < |s| && s[i] == x
    ensures forall k :: 0 <= k < i ==> s[k] != x
  {
    if s[0] == x then 0 else Position(s[1..], x) + 1
  }

  // ----- order by -----

  ghost predicate TotalPreorder<T(!new)>(le: (T, T) -> bool) {
    && (forall a, b :: le(a, b) || le(b, a))
    && (forall a, b, c :: le(a, b) && le(b, c) ==> le(a, c))
  }

  ghost predicate Sorted<T(!new)>(s: seq<T>, le: (T, T) -> bool) {
    forall i, j :: 0 <= i < j < |s| ==> le(s[i], s[j])
  }

  /** `out` is one of the arrangements `order by` allows: ties may fall either way. */
  ghost predicate Arrangement<T(!new)>(s: seq<T>, out: seq<T>, le: (T, T) -> bool) {
    multiset(out) == multiset(s) && Sorted(out, le)
  }

  function Insert<T(!new)>(x: T, s: seq<T>, le: (T, T) -> bool): (r: seq<T>)
    ensures multiset(r) == multiset(s) + multiset{x}
  {
    if s == [] then [x]
    else if le(x, s[0]) then [x] + s
    else
      assert s == [s[0]] + s[1..];
      [s[0]] + Insert(x, s[1..], le)
  }

  /** The arrangement with ties in table order. */
  function OrderBy<T(!new)>(s: seq<T>, le: (T, T) -> bool): (r: seq<T>)
    ensures multiset(r) == multiset(s)
  {
    if s == [] then []
    else
      assert s == [s[0]] + s[1..];
      Insert(s[0], OrderBy(s[1..], le), le)
  }

  lemma {:induction false} InsertSorted<T(!new)>(x: T, s: seq<T>, le: (T, T) -> bool)
    requires TotalPreorder(le) && Sorted(s, le)
    ensures Sorted(Insert(x, s, le), le)
  {
    if s != [] && !le(x, s[0]) {
      InsertSorted(x, s[1..], le);
      var r := Insert(x, s[1..], le);
      forall y | y in r ensures le(s[0], y) {
        assert y in multiset(r);
      }
    }
  }

  lemma {:induction false} OrderByArranges<T(!new)>(s: seq<T>, le: (T, T) -> bool)
    requires TotalPreorder(le)
    ensures Arrangement(s, OrderBy(s, le), le)
  {
    if s == [] {
    } else {
      OrderByArranges(s[1..], le);
      InsertSorted(s[0], OrderBy(s[1..], le), le);
    }
  }

  /** The order with ties broken in favour of rows that satisfy p. */
  function TieBreak<T(!new)>(le: (T, T) -> bool, p: T -> bool): (T, T) -> bool {
    (a, b) => le(a, b) && (le(b, a) ==> p(a) || !p(b))
  }

  lemma TieBreakArranges<T(!new)>(s: seq<T>, le: (T, T) -> bool, p: T -> bool)
    requires TotalPreorder(le)
    ensures Arrangement(s, OrderBy(s, TieBreak(le, p)), TieBreak(le, p))
    ensures Arrangement(s, OrderBy(s, TieBreak(le, p)), le)
  {
    assert TotalPreorder(TieBreak(le, p));
    OrderByArranges(s, TieBreak(le, p));
    var out := OrderBy(s, TieBreak(le, p));
    forall i, j | 0 <= i < j < |out| ensures le(out[i], out[j]) {
      assert TieBreak(le, p)(out[i], out[j]);
    }
  }

  /** Some arrangement puts a row that satisfies p before one it ties with that does not. */
  lemma TieBroken<T(!new)>(s: seq<T>, le: (T, T) -> bool, p: T -> bool, a: T, b: T)
    returns (out: seq<T>, i: nat, j: nat)
    requires TotalPreorder(le) && a in s && b in s && le(a, b) && p(a) && !p(b)
    ensures Arrangement(s, out, le) && i < j < |out| && out[i] == a && out[j] == b
  {
    TieBreakArranges(s, le, p);
    out := OrderBy(s, TieBreak(le, p));
    ArrangementMembers(s, out, le);
    i, j := Position(out, a), Position(out, b);
    assert !TieBreak(le, p)(b, a);
    assert i != j && !(j < i);
  }

  lemma NoDuplicatesCounts<T(!new)>(s: seq<T>)
    ensures NoDuplicates(s) <==> forall x :: multiset(s)[x] <= 1
  {
    if s != [] {
      NoDuplicatesCounts(s[1..]);
      assert s == [s[0]] + s[1..];
      assert multiset(s) == multiset{s[0]} + multiset(s[1..]);
      assert s[0] in s[1..] <==> s[0] in multiset(s[1..]);
      if NoDuplicates(s) {
        assert NoDuplicates(s[1..]);
        forall x ensures multiset(s)[x] <= 1 {
          assert multiset(s[1..])[x] <= 1;
        }
      } else {
        var i, j :| 0 <= i < j < |s| && s[i] == s[j];
        if i == 0 {
          assert s[1..][j-1] == s[0];
          assert multiset(s)[s[0]] > 1;
        } else {
          assert s[1..][i-1] == s[1..][j-1];
          var x :| multiset(s[1..])[x] > 1;
          assert multiset(s)[x] > 1;
        }
      }
    }
  }

  lemma NoDuplicatesPermutes<T(!new)>(a: seq<T>, b: seq<T>)
    requires multiset(a) == multiset(b)
    ensures NoDuplicates(a) <==> NoDuplicates(b)
  {
    NoDuplicatesCounts(a);
    NoDuplicatesCounts(b);
  }

  lemma ArrangementMembers<T(!new)>(s: seq<T>, out: seq<T>, le: (T, T) -> bool)
    requires Arrangement(s, out, le)
    ensures |out| == |s|
    ensures forall x :: x in out <==> x in s
  {
    assert |multiset(out)| == |multiset(s)|;
    forall x ensures x in out <==> x in s {
      assert x in out <==> x in multiset(out);
      assert x in s <==> x in multiset(s);
    }
  }

  /** A unique column tells rows apart. */
  lemma SameRow<T(!new), K(!new)>(s: seq<T>, key: T -> K, x: T, y: T)
    requires Unique(s, key) && x in s && y in s && key(x) == key(y)
    ensures x == y
  {
    var i :| 0 <= i < |s| && s[i] == x;
    var j :| 0 <= j < |s| && s[j] == y;
    assert !(i < j) && !(j < i);
  }

  lemma EmptyOrMember<T>(s: seq<T>)
    ensures s == [] || exists x :: x in s
  {
    assert s == [] || s[0] in s;
  }

  // ----- references -----

  /** Some row has the key. */
  ghost predicate HasKey<T(!new), K(!new)>(s: seq<T>, key: T -> K, k: K) {
    exists x :: x in s && key(x) == k
  }

  /** Every row of a refers to a row of b. */
  ghost predicate RefersTo<A(!new), B(!new), K(!new)>(a: seq<A>, f: A -> K, b: seq<B>, g: B -> K) {
    forall x :: x in a ==> HasKey(b, g, f(x))
  }

  /** Some row with the key k belongs to x. */
  ghost predicate Under<T(!new), K(!new), L(!new)>(s: seq<T>, key: T -> K, owner: T -> L, k: K, x: L) {
    exists y :: y in s && key(y) == k && owner(y) == x
  }

  /** Deleting the largest key frees it for the next insert exactly when the key before it is
      in use, or it was 1 and alone. */
  lemma NextAfterDelete<T(!new)>(s: seq<T>, key: T -> int, k: int)
    requires forall x :: x in s ==> key(x) <= k
    ensures NextId(Delete(s, key, k), key) == k <==>
            HasKey(s, key, k - 1) || (k == 1 && forall x :: x in s ==> key(x) == 1)
  {
    var left := Delete(s, key, k);
    EmptyOrMember(left);
    if HasKey(s, key, k - 1) {
      var x :| x in s && key(x) == k - 1;
      assert x in left;
    }
  }

  /** Deleting a row keeps references intact exactly when nothing refers to it. */
  lemma DeleteReferred<A(!new), B(!new), K(!new)>(a: seq<A>, f: A -> K, b: seq<B>, g: B -> K, k: K)
    requires RefersTo(a, f, b, g)
    ensures RefersTo(a, f, Delete(b, g, k), g) <==> !HasKey(a, f, k)
  {
    var left := Delete(b, g, k);
    forall x | x in a ensures HasKey(left, g, f(x)) <==> f(x) != k {
      var y :| y in b && g(y) == f(x);
      assert f(x) != k ==> y in left;
    }
  }

  /** Deleting a row together with what refers to it keeps references intact. */
  lemma DeleteBoth<A(!new), B(!new), K(!new)>(a: seq<A>, f: A -> K, b: seq<B>, g: B -> K, k: K)
    requires RefersTo(a, f, b, g)
    ensures RefersTo(Delete(a, f, k), f, Delete(b, g, k), g)
  {
    DeleteReferred(Delete(a, f, k), f, b, g, k);
  }

  lemma RefersToMore<A(!new), B(!new), K(!new)>(a: seq<A>, f: A -> K, b: seq<B>, c: seq<B>, g: B -> K)
    requires RefersTo(a, f, b, g) && forall y :: y in b ==> y in c
    ensures RefersTo(a, f, c, g)
  {
    forall x | x in a ensures HasKey(c, g, f(x)) {
      assert HasKey(b, g, f(x));
    }
  }

  /** An inserted row keeps references intact exactly when what it refers to exists. */
  lemma InsertReferring<A(!new), B(!new), K(!new)>(a: seq<A>, x: A, f: A -> K, b: seq<B>, g: B -> K)
    requires RefersTo(a, f, b, g)
    ensures RefersTo(a + [x], f, b, g) <==> HasKey(b, g, f(x))
  {
    assert x in a + [x];
  }

  /** An update that leaves the key alone leaves the keys alone. */
  lemma HasKeyMapped<T(!new), K(!new)>(s: seq<T>, h: T -> T, key: T -> K, k: K)
    requires forall x :: key(h(x)) == key(x)
    ensures HasKey(Map(s, h), key, k) <==> HasKey(s, key, k)
  {
    if HasKey(Map(s, h), key, k) {
      var y :| y in Map(s, h) && key(y) == k;
      MapMembers(s, h, y);
    }
    if HasKey(s, key, k) {
      var x :| x in s && key(x) == k;
      MapMembers(s, h, h(x));
    }
  }

  lemma RefersToMapped<A(!new), B(!new), K(!new)>(a: seq<A>, f: A -> K, b: seq<B>, h: B -> B, g: B -> K)
    requires forall y :: g(h(y)) == g(y)
    ensures RefersTo(a, f, Map(b, h), g) <==> RefersTo(a, f, b, g)
  {
    forall x | x in a ensures HasKey(Map(b, h), g, f(x)) <==> HasKey(b, g, f(x)) {
      HasKeyMapped(b, h, g, f(x));
    }
  }

  lemma RefersFromMapped<A(!new), B(!new), K(!new)>(a: seq<A>, h: A -> A, f: A -> K, b: seq<B>, g: B -> K)
    requires forall x :: f(h(x)) == f(x)
    ensures RefersTo(Map(a, h), f, b, g) <==> RefersTo(a, f, b, g)
  {
    forall x | x in a ensures HasKey(Map(a, h), f, f(x)) {
      HasKeyMapped(a, h, f, f(x));
    }
    if RefersTo(Map(a, h), f, b, g) {
      forall x | x in a ensures HasKey(b, g, f(x)) {
        MapMembers(a, h, h(x));
      }
    }
    if RefersTo(a, f, b, g) {
      forall y | y in Map(a, h) ensures HasKey(b, g, f(y)) {
        MapMembers(a, h, y);
      }
    }
  }

  lemma UniqueAppend<T(!new), K(!new)>(s: seq<T>, x: T, key: T -> K)
    requires Unique(s, key) && forall y :: y in s ==> key(y) != key(x)
    ensures Unique(s + [x], key)
  {
  }

  lemma UniqueMapped<T(!new), K(!new)>(s: seq<T>, f: T -> T, key: T -> K)
    requires Unique(s, key) && forall x :: key(f(x)) == key(x)
    ensures Unique(Map(s, f), key)
  {
    forall i, j | 0 <= i < j < |s| ensures key(Map(s, f)[i]) != key(Map(s, f)[j]) {
      assert key(s[i]) != key(s[j]);
    }
  }

  /** Deleting the rows that belong to x keeps references intact exactly when nothing refers
      to one of them. */
  lemma DeleteOwned<A(!new), B(!new), K(!new), L(!new)>(
      a: seq<A>, f: A -> K, b: seq<B>, g: B -> K, owner: B -> L, x: L)
    requires RefersTo(a, f, b, g) && Unique(b, g)
    ensures RefersTo(a, f, Delete(b, owner, x), g) <==> forall r :: r in a ==> !Under(b, g, owner, f(r), x)
  {
    var left := Delete(b, owner, x);
    forall r | r in a ensures HasKey(left, g, f(r)) <==> !Under(b, g, owner, f(r), x) {
      var y :| y in b && g(y) == f(r);
      if owner(y) != x {
        assert y in left;
      }
      forall z | z in b && g(z) == f(r) ensures z == y {
        SameRow(b, g, y, z);
      }
    }
  }

  // ----- facts about selection and aggregation -----

  lemma {:induction false} FilterConcat<T(!new)>(a: seq<T>, b: seq<T>, p: T -> bool)
    ensures Filter(a + b, p) == Filter(a, p) + Filter(b, p)
  {
    if a == [] {
      assert a + b == b;
    } else {
      assert (a + b)[1..] == a[1..] + b;
      FilterConcat(a[1..], b, p);
    }
  }

  lemma {:induction false} FilterAgree<T(!new)>(s: seq<T>, p: T -> bool, q: T -> bool)
    requires forall x :: x in s ==> p(x) == q(x)
    ensures Filter(s, p) == Filter(s, q)
  {
    if s == [] {
    } else {
      FilterAgree(s[1..], p, q);
    }
  }

  lemma {:induction false} FilterAll<T(!new)>(s: seq<T>, p: T -> bool)
    requires forall x :: x in s ==> p(x)
    ensures Filter(s, p) == s
  {
    if s == [] {
    } else {
      FilterAll(s[1..], p);
    }
  }

  lemma {:induction false} FilterFilter<T(!new)>(s: seq<T>, p: T -> bool, q: T -> bool)
    ensures Filter(Filter(s, p), q) == Filter(s, And(p, q))
  {
    if s == [] {
    } else {
      FilterFilter(s[1..], p, q);
    }
  }

  /** A row is selected as often as it is in the table. */
  lemma {:induction false} FilterMultiplicity<T(!new)>(s: seq<T>, p: T -> bool, x: T)
    ensures multiset(Filter(s, p))[x] == if p(x) then multiset(s)[x] else 0
  {
    if s == [] {
    } else {
      FilterMultiplicity(s[1..], p, x);
      assert s == [s[0]] + s[1..];
    }
  }

  /** How many rows are selected. */
  lemma {:induction false} FilterCount<T(!new)>(s: seq<T>, p: T -> bool)
    ensures |Filter(s, p)| == |Places(s, p)|
  {
    if s == [] {
      assert Places(s, p) == {};
    } else {
      var before, last := s[..|s|-1], s[|s|-1];
      assert s == before + [last];
      FilterConcat(before, [last], p);
      FilterCount(before, p);
      PlacesLast(before, last, p);
      assert |Filter([last], p)| == if p(last) then 1 else 0;
    }
  }

  lemma {:induction false} AtMostOneSelected<T(!new)>(s: seq<T>, p: T -> bool)
    ensures |Filter(s, p)| <= 1 <==> forall i, j :: 0 <= i < j < |s| ==> !(p(s[i]) && p(s[j]))
  {
    if s == [] {
    } else {
      AtMostOneSelected(s[1..], p);
      EmptyOrMember(Filter(s[1..], p));
      if p(s[0]) && Filter(s[1..], p) != [] {
        var x :| x in Filter(s[1..], p);
        var i :| 0 <= i < |s[1..]| && s[1..][i] == x;
        assert p(s[0]) && p(s[i + 1]);
      }
      if forall i, j :: 0 <= i < j < |s| ==> !(p(s[i]) && p(s[j])) {
        forall i, j | 0 <= i < j < |s[1..]| ensures !(p(s[1..][i]) && p(s[1..][j])) {
          assert !(p(s[i + 1]) && p(s[j + 1]));
        }
      }
    }
  }

  /** The positions of the rows that satisfy p. */
  ghost function Places<T(!new)>(s: seq<T>, p: T -> bool): set<int> {
    set i | 0 <= i < |s| && p(s[i])
  }

  lemma PlacesLast<T(!new)>(s: seq<T>, x: T, p: T -> bool)
    ensures |Places(s + [x], p)| == |Places(s, p)| + if p(x) then 1 else 0
  {
    assert Places(s + [x], p) == if p(x) then Places(s, p) + {|s|} else Places(s, p);
  }

  ghost function Images<T(!new), U>(s: seq<T>, f: T -> U): set<U> {
    set x | x in s :: f(x)
  }

  /** Rows that differ in the image of f are as many as their images. */
  lemma {:induction false} DistinctImages<T(!new), U(!new)>(s: seq<T>, f: T -> U)
    requires Unique(s, f)
    ensures |Images(s, f)| == |s|
  {
    if s == [] {
      assert Images(s, f) == {};
    } else {
      DistinctImages(s[1..], f);
      assert Images(s, f) == {f(s[0])} + Images(s[1..], f);
    }
  }

  /** Different selected rows are as many as their images, if f tells them apart. */
  lemma ImagesCounted<T(!new), U(!new)>(s: seq<T>, p: T -> bool, f: T -> U)
    requires NoDuplicates(s) && forall x, y :: p(x) && p(y) && f(x) == f(y) ==> x == y
    ensures |Filter(s, p)| == |Images(Filter(s, p), f)|
  {
    var rows := Filter(s, p);
    assert Unique(s, Same<T>);
    FilterUnique(s, p, Same<T>);
    forall i, j | 0 <= i < j < |rows| ensures f(rows[i]) != f(rows[j]) {
      assert rows[i] in rows && rows[j] in rows && Same(rows[i]) != Same(rows[j]);
    }
    DistinctImages(rows, f);
  }

  /** A stronger condition keeps fewer rows, and as many only when it rejects none. */
  lemma {:induction false} FilterSubset<T(!new)>(s: seq<T>, p: T -> bool, q: T -> bool)
    requires forall x :: x in s && p(x) ==> q(x)
    ensures |Filter(s, p)| <= |Filter(s, q)|
    ensures |Filter(s, p)| == |Filter(s, q)| <==> forall x :: x in s && q(x) ==> p(x)
  {
    if s == [] {
    } else {
      FilterSubset(s[1..], p, q);
      assert s[0] in s && forall x :: x in s <==> x == s[0] || x in s[1..];
    }
  }

  lemma {:induction false} FilterUnique<T(!new), K(!new)>(s: seq<T>, p: T -> bool, key: T -> K)
    requires Unique(s, key)
    ensures Unique(Filter(s, p), key)
  {
    if s == [] {
    } else {
      FilterUnique(s[1..], p, key);
      forall x | x in Filter(s[1..], p) ensures key(x) != key(s[0]) {
        assert x in s[1..];
      }
    }
  }

  /** Looking a row up by a unique column finds at most that one row. */
  lemma {:induction false} LookupUnique<T(!new), K(!new)>(s: seq<T>, key: T -> K, x: Option<K>)
    requires Unique(s, key)
    ensures |Lookup(s, key, x)| <= 1
  {
    if s == [] {
    } else {
      LookupUnique(s[1..], key, x);
      if x == Some(key(s[0])) {
        assert forall t :: t in s[1..] ==> key(t) != key(s[0]);
        EmptyOrMember(Lookup(s[1..], key, x));
      }
    }
  }

  lemma {:induction false} FlatMapMembers<A, B>(s: seq<A>, f: A -> seq<B>, y: B)
    ensures y in FlatMap(s, f) <==> exists x :: x in s && y in f(x)
  {
    if s == [] {
    } else {
      FlatMapMembers(s[1..], f, y);
      assert forall x :: x in s <==> x == s[0] || x in s[1..];
    }
  }

  /** A join along unique keys finds at most one row. */
  lemma FlatMapAtMostOne<A(!new), B(!new)>(s: seq<A>, f: A -> seq<B>)
    requires |s| <= 1
    requires forall x :: x in s ==> |f(x)| <= 1
    ensures |FlatMap(s, f)| <= 1
  {
    if s != [] {
      assert FlatMap(s[1..], f) == [];
    }
  }

  function NonEmpty<A, B>(f: A -> seq<B>): A -> bool {
    x => f(x) != []
  }

  /** A join that finds at most one partner for each row yields, in order, the rows that
      have a partner. */
  lemma {:induction false} JoinSelects<A(!new), B(!new), K(!new)>(s: seq<A>, f: A -> seq<B>, left: A -> K,
      right: B -> K)
    requires forall x :: x in s ==> |f(x)| <= 1
    requires forall x, y :: x in s && y in f(x) ==> right(y) == left(x)
    ensures Map(FlatMap(s, f), right) == Map(Filter(s, NonEmpty(f)), left)
  {
    if s == [] {
    } else {
      JoinSelects(s[1..], f, left, right);
      if f(s[0]) != [] {
        assert f(s[0]) == [f(s[0])[0]] && f(s[0])[0] in f(s[0]);
        MapFirst(f(s[0])[0], FlatMap(s[1..], f), right);
        MapFirst(s[0], Filter(s[1..], NonEmpty(f)), left);
      }
    }
  }

  lemma MapFirst<A(!new), B>(x: A, s: seq<A>, f: A -> B)
    ensures Map([x] + s, f) == [f(x)] + Map(s, f)
  {
  }

  function Without<T>(s: seq<T>, i: nat): (r: seq<T>)
    requires i < |s|
    ensures multiset(s) == multiset(r) + multiset{s[i]}
  {
    assert s == s[..i] + [s[i]] + s[i+1..];
    s[..i] + s[i+1..]
  }

  lemma MapWithout<A(!new), B>(s: seq<A>, i: nat, f: A -> B)
    requires i < |s|
    ensures multiset(Map(s, f)) == multiset(Map(Without(s, i), f)) + multiset{f(s[i])}
  {
    assert Map(Without(s, i), f) == Without(Map(s, f), i);
  }

  lemma {:induction false} MapPermutes<A(!new), B>(a: seq<A>, b: seq<A>, f: A -> B)
    requires multiset(a) == multiset(b)
    ensures multiset(Map(a, f)) == multiset(Map(b, f))
  {
    if a == [] {
      assert |multiset(b)| == 0;
    } else {
      assert a[0] in multiset(b);
      var i := Position(b, a[0]);
      var a', b' := Without(a, 0), Without(b, i);
      assert multiset(a') == multiset(a) - multiset{a[0]} == multiset(b');
      MapPermutes(a', b', f);
      MapWithout(a, 0, f);
      MapWithout(b, i, f);
    }
  }

  lemma MapMembers<A(!new), B>(s: seq<A>, f: A -> B, y: B)
    ensures y in Map(s, f) <==> exists x :: x in s && f(x) == y
  {
    if y in Map(s, f) {
      var i :| 0 <= i < |s| && Map(s, f)[i] == y;
      assert s[i] in s;
    }
    if exists x :: x in s && f(x) == y {
      var x :| x in s && f(x) == y;
      var i :| 0 <= i < |s| && s[i] == x;
      assert Map(s, f)[i] == y;
    }
  }

  /** Two tables whose rows pair up by key have the same keys. */
  lemma SameKeys<A(!new), B(!new), K(!new)>(a: seq<A>, b: seq<B>, f: A -> K, g: B -> K)
    requires forall x :: x in a ==> exists y :: y in b && g(y) == f(x)
    requires forall y :: y in b ==> exists x :: x in a && f(x) == g(y)
    ensures forall k :: k in Map(a, f) <==> k in Map(b, g)
  {
    forall k ensures k in Map(a, f) <==> k in Map(b, g) {
      MapMembers(a, f, k);
      MapMembers(b, g, k);
    }
  }

  lemma {:induction false} AddConcat<T(!new)>(a: seq<T>, b: seq<T>, w: T -> int)
    ensures Add(a + b, w) == Add(a, w) + Add(b, w)
  {
    if a == [] {
      assert a + b == b;
    } else {
      assert (a + b)[1..] == a[1..] + b;
      AddConcat(a[1..], b, w);
    }
  }

  lemma {:induction false} AddAgree<T(!new)>(s: seq<T>, v: T -> int, w: T -> int)
    requires forall x :: x in s ==> v(x) == w(x)
    ensures Add(s, v) == Add(s, w)
  {
    if s == [] {
    } else {
      AddAgree(s[1..], v, w);
    }
  }

  lemma {:induction false} AddMapped<A(!new), B(!new)>(s: seq<A>, f: A -> B, v: A -> int, w: B -> int)
    requires forall x :: x in s ==> v(x) == w(f(x))
    ensures Add(s, v) == Add(Map(s, f), w)
  {
    if s == [] {
    } else {
      AddMapped(s[1..], f, v, w);
      assert Map(s, f)[1..] == Map(s[1..], f);
    }
  }

  lemma {:induction false} AddWithout<T(!new)>(s: seq<T>, i: nat, w: T -> int)
    requires i < |s|
    ensures Add(s, w) == Add(Without(s, i), w) + w(s[i])
  {
    if i == 0 {
      assert Without(s, 0) == s[1..];
    } else {
      AddWithout(s[1..], i - 1, w);
      assert Without(s, i)[1..] == Without(s[1..], i - 1) && Without(s, i)[0] == s[0];
    }
  }

  /** The order of the rows does not matter to a sum. */
  lemma {:induction false} AddPermutes<T(!new)>(a: seq<T>, b: seq<T>, w: T -> int)
    requires multiset(a) == multiset(b)
    ensures Add(a, w) == Add(b, w)
  {
    if a == [] {
      assert |multiset(b)| == 0;
    } else {
      assert a[0] in multiset(b);
      var i := Position(b, a[0]);
      assert multiset(Without(a, 0)) == multiset(a) - multiset{a[0]} == multiset(Without(b, i));
      AddPermutes(Without(a, 0), Without(b, i), w);
      AddWithout(a, 0, w);
      AddWithout(b, i, w);
    }
  }

  lemma {:induction false} AddFiltered<T(!new)>(s: seq<T>, p: T -> bool, v: T -> int, w: T -> int)
    requires forall x :: x in s ==> w(x) == if p(x) then v(x) else 0
    ensures Add(Filter(s, p), v) == Add(s, w)
  {
    if s == [] {
    } else {
      AddFiltered(s[1..], p, v, w);
    }
  }

  /** Splitting a table in two splits its sum. */
  lemma {:induction false} AddSplit<T(!new)>(s: seq<T>, p: T -> bool, w: T -> int)
    ensures Add(s, w) == Add(Filter(s, p), w) + Add(Filter(s, Not(p)), w)
  {
    if s == [] {
    } else {
      AddSplit(s[1..], p, w);
    }
  }

  /** `select sum(w) ... group by key`, one figure for each key. */
  function GroupSum<T(!new), K(==)>(s: seq<T>, key: T -> K, w: T -> int): K -> int {
    k => Add(Filter(s, Having(key, k)), w)
  }

  /** `group by key` loses nothing: the groups' sums add up to the table's sum. */
  lemma {:induction false} AddGroups<T(!new), K(!new)>(s: seq<T>, key: T -> K, keys: seq<K>, w: T -> int)
    requires NoDuplicates(keys)
    requires forall x :: x in s ==> key(x) in keys
    ensures Add(keys, GroupSum(s, key, w)) == Add(s, w)
    decreases |keys|
  {
    if keys == [] {
      EmptyOrMember(s);
    } else {
      var here := Having(key, keys[0]);
      var rest := Filter(s, Not(here));
      AddSplit(s, here, w);
      AddGroups(rest, key, keys[1..], w);
      forall k | k in keys[1..] ensures GroupSum(rest, key, w)(k) == GroupSum(s, key, w)(k) {
        FilterFilter(s, Not(here), Having(key, k));
        FilterAgree(s, And(Not(here), Having(key, k)), Having(key, k));
      }
      AddAgree(keys[1..], GroupSum(rest, key, w), GroupSum(s, key, w));
    }
  }

  /** `ifnull(sum(w), 0)` is the plain sum with NULL counted as nothing. */
  lemma {:induction false} SqlSumOrZero<T(!new)>(s: seq<T>, w: T -> Option<int>)
    ensures SqlSum(s, w).GetOr(0) == Add(s, x => w(x).GetOr(0))
  {
    if s == [] {
    } else {
      SqlSumOrZero(s[1..], w);
    }
  }

  // ----- lists without repetition -----

  lemma {:induction false} SameMembersSameLength<T(!new)>(a: seq<T>, b: seq<T>)
    requires NoDuplicates(a) && NoDuplicates(b)
    requires forall x :: x in a <==> x in b
    ensures |a| == |b|
  {
    if a == [] {
      EmptyOrMember(b);
    } else {
      assert a[0] in a;
      var i := Position(b, a[0]);
      var b' := Without(b, i);
      forall x ensures x in a[1..] <==> x in b' {
        if x in a[1..] {
          assert x in a && x != a[0] && x in b;
          var j :| 0 <= j < |b| && b[j] == x;
          assert j != i;
          assert x in b';
        }
        if x in b' {
          var j :| 0 <= j < |b'| && b'[j] == x;
          assert x == if j < i then b[j] else b[j+1];
          assert x in b && x in a && x != a[0];
        }
      }
      SameMembersSameLength(a[1..], b');
    }
  }

  /** A list in strictly increasing order is determined by its members. */
  lemma {:induction false} StrictOrderUnique<T(!new)>(a: seq<T>, b: seq<T>, lt: (T, T) -> bool)
    requires forall x :: !lt(x, x)
    requires forall x, y, z :: lt(x, y) && lt(y, z) ==> lt(x, z)
    requires Sorted(a, lt) && Sorted(b, lt)
    requires forall x :: x in a <==> x in b
    ensures a == b
  {
    if a == [] {
      EmptyOrMember(b);
    } else {
      assert a[0] in b && b[0] in a by { assert a[0] in a && |b| > 0 && b[0] in b; }
      assert a[0] == b[0];
      forall x ensures x in a[1..] <==> x in b[1..] {
        if x in a[1..] { assert x in a && lt(a[0], x) && x in b; }
        if x in b[1..] { assert x in b && lt(b[0], x) && x in a; }
      }
      StrictOrderUnique(a[1..], b[1..], lt);
    }
  }

  function OtherThan<T(==)>(y: T): T -> bool {
    x => x != y
  }

  lemma {:induction false} FilterSorted<T(!new)>(s: seq<T>, p: T -> bool, le: (T, T) -> bool)
    requires Sorted(s, le)
    ensures Sorted(Filter(s, p), le)
  {
    if s == [] {
    } else {
      FilterSorted(s[1..], p, le);
      forall x | x in Filter(s[1..], p) ensures le(s[0], x) {
        var i :| 0 <= i < |s[1..]| && s[1..][i] == x;
        assert le(s[0], s[i + 1]);
      }
    }
  }

  /** Re-sorting after only s has come forward. */
  lemma ToFront<T(!new)>(ids: seq<T>, ids': seq<T>, s: T, lt: (T, T) -> bool, lt': (T, T) -> bool)
    requires Sorted(ids, lt) && Sorted(ids', lt')
    requires s in ids && forall x :: x in ids <==> x in ids'
    requires forall x :: x in ids && x != s ==> lt'(s, x)
    requires forall x, y :: x in ids && y in ids && x != s && y != s && lt(x, y) ==> lt'(x, y)
    requires forall x :: !lt'(x, x)
    requires forall x, y, z :: lt'(x, y) && lt'(y, z) ==> lt'(x, z)
    ensures ids' == [s] + Filter(ids, OtherThan(s))
  {
    var others := Filter(ids, OtherThan(s));
    var expected := [s] + others;
    FilterSorted(ids, OtherThan(s), lt);
    forall i, j | 0 <= i < j < |expected| ensures lt'(expected[i], expected[j]) {
      assert others[j-1] in others;
      if i > 0 {
        assert others[i-1] in others && lt(others[i-1], others[j-1]);
      }
    }
    StrictOrderUnique(ids', expected, lt');
  }
}
