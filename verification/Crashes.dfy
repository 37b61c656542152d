/** Crash records and their image files (insCrash.php, insCrashImg.php, delCrash.php,
    updateCrash.php): the directory and the image table stay in step. */
module Crashes {
  import opened Relational
  import opened Images
  import opened Mysqli

  datatype Crash = Crash(crashIdx: nat, carIdx: int, date: string, memo: string, location: string)
  datatype CrashImg = CrashImg(crashIdx: nat, img: string)

  /** The two tables, and the crash directory with the contents of its files. */
  datatype State = State(crashes: seq<Crash>, imgs: seq<CrashImg>, files: map<string, string>)

  function CrashKey(c: Crash): int { c.crashIdx }
  function ImgCrash(i: CrashImg): int { i.crashIdx }

  function FileName(crashIdx: nat, flag: nat): string {
    ImageName("./crash/cr", crashIdx, flag)
  }

  function ImageNames(imgs: seq<CrashImg>): set<string> {
    set i | i in imgs :: i.img
  }

  /** `max(crash_idx) + 1`, or 1 while there is no crash. */
  function NewCrashIdx(s: State): nat {
    var last := SqlMax(s.crashes, CrashKey);
    if last.Some? then last.value + 1 else 1
  }

  function InsertCrash(s: State, carIdx: int, date: string, memo: string, location: string): State {
    s.(crashes := s.crashes + [Crash(NewCrashIdx(s), carIdx, date, memo, location)])
  }

  function AddImage(s: State, crashIdx: nat, flag: nat, content: string): State {
    s.(files := s.files[FileName(crashIdx, flag) := content],
       imgs := s.imgs + [CrashImg(crashIdx, FileName(crashIdx, flag))])
  }

  /** Unlinking the crash's images and deleting their rows. */
  function Clear(s: State, crashIdx: nat): State {
    s.(files := s.files - ImageNames(Lookup(s.imgs, ImgCrash, Some(crashIdx))),
       imgs := Delete(s.imgs, ImgCrash, crashIdx))
  }

  function DeleteCrash(s: State, crashIdx: nat): State {
    Clear(s, crashIdx).(crashes := Delete(s.crashes, CrashKey, crashIdx))
  }

  function Edited(crashIdx: nat, date: string, memo: string, location: string): Crash -> Crash {
    (c: Crash) => if c.crashIdx == crashIdx then c.(date := date, memo := memo, location := location) else c
  }

  function UpdateCrash(s: State, crashIdx: nat, date: string, memo: string, location: string): State {
    Clear(s, crashIdx).(crashes := Map(s.crashes, Edited(crashIdx, date, memo, location)))
  }

  class Database {
    var db: State

    method InsCrash(carIdx: int, date: string, memo: string, place: string) returns (crashIdx: nat)
      modifies this
      ensures db == InsertCrash(old(db), carIdx, date, memo, place) && crashIdx == NewCrashIdx(old(db))
    {
      var last := SqlMax(db.crashes, CrashKey);
      crashIdx := if last.Some? then last.value + 1 else 1;
      db := db.(crashes := db.crashes + [Crash(crashIdx, carIdx, date, memo, place)]);
    }

    method InsCrashImg(crashIdx: nat, flag: nat, content: string)
      modifies this
      ensures db == AddImage(old(db), crashIdx, flag, content)
    {
      var filename := FileName(crashIdx, flag);
      db := db.(files := db.files[filename := content]);
      db := db.(imgs := db.imgs + [CrashImg(crashIdx, filename)]);
    }

    /** The loop both scripts run over the crash's image rows. */
    method UnlinkAll(crashIdx: nat)
      modifies this
      ensures db == old(db).(files := old(db).files - ImageNames(Lookup(old(db).imgs, ImgCrash, Some(crashIdx))))
    {
      var result2 := new ResultSet(Lookup(db.imgs, ImgCrash, Some(crashIdx)));
      for i := 0 to |result2.rows|
        invariant result2.Valid() && result2.next == i
        invariant db == old(db).(files := old(db).files - ImageNames(result2.rows[..i]))
      {
        assert result2.rows[..i+1] == result2.rows[..i] + [result2.rows[i]];
        var row := result2.Fetch();
        db := db.(files := db.files - {row.value.img});
      }
      assert result2.rows[..|result2.rows|] == result2.rows;
    }

    method DelCrash(crashIdx: nat)
      modifies this
      ensures db == DeleteCrash(old(db), crashIdx)
    {
      UnlinkAll(crashIdx);
      db := db.(imgs := Delete(db.imgs, ImgCrash, crashIdx));
      db := db.(crashes := Delete(db.crashes, CrashKey, crashIdx));
    }

    method EditCrash(crashIdx: nat, date: string, memo: string, location: string)
      modifies this
      ensures db == UpdateCrash(old(db), crashIdx, date, memo, location)
    {
      UnlinkAll(crashIdx);
      db := db.(imgs := Delete(db.imgs, ImgCrash, crashIdx));
      db := db.(crashes := Map(db.crashes, Edited(crashIdx, date, memo, location)));
    }
  }

  // ----- the records -----

  /** A recorded crash is there as it was entered, under an id of its own; the others stay. */
  lemma CrashRecorded(s: State, carIdx: int, date: string, memo: string, location: string)
    ensures var s' := InsertCrash(s, carIdx, date, memo, location);
            exists c :: c in s'.crashes && c !in s.crashes &&
              c.carIdx == carIdx && c.date == date && c.memo == memo && c.location == location &&
              (forall d :: d in s.crashes ==> d.crashIdx < c.crashIdx) &&
              (forall d :: d in s'.crashes <==> d in s.crashes || d == c)
  {
    var s' := InsertCrash(s, carIdx, date, memo, location);
    var c := s'.crashes[|s.crashes|];
    assert c in s'.crashes;
    forall d | d in s.crashes ensures d.crashIdx < c.crashIdx {
      assert CrashKey(d) == d.crashIdx;
    }
  }

  /** Editing a crash keeps its id and car and sets the rest, in that crash alone. */
  lemma CrashEdited(s: State, crashIdx: nat, date: string, memo: string, location: string)
    ensures var s' := UpdateCrash(s, crashIdx, date, memo, location);
            && |s'.crashes| == |s.crashes|
            && forall i :: 0 <= i < |s.crashes| ==>
                 var c, d := s.crashes[i], s'.crashes[i];
                 && d.crashIdx == c.crashIdx && d.carIdx == c.carIdx
                 && (c.crashIdx != crashIdx ==> d == c)
                 && (c.crashIdx == crashIdx ==> d.date == date && d.memo == memo && d.location == location)
  {
  }

  /** Deleting a crash takes its row and its image rows and no others. */
  lemma CrashDeleted(s: State, crashIdx: nat)
    ensures forall c :: c in DeleteCrash(s, crashIdx).crashes <==> c in s.crashes && c.crashIdx != crashIdx
    ensures forall i :: i in DeleteCrash(s, crashIdx).imgs <==> i in s.imgs && i.crashIdx != crashIdx
  {
  }

  // ----- file names -----

  /** No two images of different crashes, or with different flags, share a file. */
  lemma FileNameInjective(crashIdx: nat, flag: nat, crashIdx': nat, flag': nat)
    requires FileName(crashIdx, flag) == FileName(crashIdx', flag')
    ensures crashIdx == crashIdx' && flag == flag'
  {
    ImageNameInjective("./crash/cr", crashIdx, flag, crashIdx', flag');
  }

  // ----- what runs keep -----

  ghost predicate CrashExists(s: State, crashIdx: nat) {
    exists c :: c in s.crashes && c.crashIdx == crashIdx
  }

  /** The row names the file its crash and some flag stand for. */
  ghost predicate Named(i: CrashImg) {
    exists flag: nat :: i.img == FileName(i.crashIdx, flag)
  }

  /** The files are exactly those the image rows name, and image rows belong to crashes. */
  ghost predicate InStep(s: State) {
    && s.files.Keys == ImageNames(s.imgs)
    && (forall i :: i in s.imgs ==> Named(i) && CrashExists(s, i.crashIdx))
  }

  datatype Op = Inserting(carIdx: int, date: string, memo: string, location: string)
              | Adding(crashIdx: nat, flag: nat, content: string)
              | Deleting(crashIdx: nat)
              | Updating(crashIdx: nat, date: string, memo: string, location: string)

  function Step(s: State, op: Op): State {
    match op
    case Inserting(carIdx, date, memo, location) => InsertCrash(s, carIdx, date, memo, location)
    case Adding(crashIdx, flag, content) => AddImage(s, crashIdx, flag, content)
    case Deleting(crashIdx) => DeleteCrash(s, crashIdx)
    case Updating(crashIdx, date, memo, location) => UpdateCrash(s, crashIdx, date, memo, location)
  }

  lemma SameFileSameCrash(i: CrashImg, j: CrashImg)
    requires Named(i) && Named(j) && i.img == j.img
    ensures i.crashIdx == j.crashIdx
  {
    var f: nat :| i.img == FileName(i.crashIdx, f);
    var g: nat :| j.img == FileName(j.crashIdx, g);
    FileNameInjective(i.crashIdx, f, j.crashIdx, g);
  }

  /** Clearing a crash removes its own files and leaves every other crash's files, contents
      and rows alone. */
  lemma ClearKeepsOthers(s: State, crashIdx: nat)
    requires InStep(s)
    ensures Clear(s, crashIdx).files.Keys == ImageNames(Clear(s, crashIdx).imgs)
    ensures forall i :: i in s.imgs && i.crashIdx != crashIdx ==>
              i in Clear(s, crashIdx).imgs && i.img in Clear(s, crashIdx).files &&
              Clear(s, crashIdx).files[i.img] == s.files[i.img]
    ensures forall i :: i in s.imgs && i.crashIdx == crashIdx ==>
              i !in Clear(s, crashIdx).imgs && i.img !in Clear(s, crashIdx).files
  {
    var mine := Lookup(s.imgs, ImgCrash, Some(crashIdx));
    forall i | i in s.imgs ensures i.img in ImageNames(mine) <==> i.crashIdx == crashIdx {
      if i.img in ImageNames(mine) {
        var j :| j in mine && j.img == i.img;
        SameFileSameCrash(i, j);
      }
      if i.crashIdx == crashIdx {
        assert i in mine;
      }
    }
    forall i | i in s.imgs ensures i.img in s.files {
      assert i.img in ImageNames(s.imgs);
    }
  }

  lemma EditedIds(s: State, crashIdx: nat, date: string, memo: string, location: string, x: nat)
    requires CrashExists(s, x)
    ensures CrashExists(UpdateCrash(s, crashIdx, date, memo, location), x)
  {
    var c :| c in s.crashes && c.crashIdx == x;
    MapMembers(s.crashes, Edited(crashIdx, date, memo, location), Edited(crashIdx, date, memo, location)(c));
  }

  /** An image keeps directory and table in step exactly when its crash exists. */
  lemma AddImageInStep(s: State, crashIdx: nat, flag: nat, content: string)
    requires InStep(s)
    ensures InStep(AddImage(s, crashIdx, flag, content)) <==> CrashExists(s, crashIdx)
  {
    var s', i := AddImage(s, crashIdx, flag, content), CrashImg(crashIdx, FileName(crashIdx, flag));
    assert Named(i) && i in s'.imgs;
    assert ImageNames(s'.imgs) == ImageNames(s.imgs) + {i.img};
    assert forall x: nat :: CrashExists(s', x) <==> CrashExists(s, x);
  }

  lemma StepInStep(s: State, op: Op)
    requires InStep(s)
    ensures InStep(Step(s, op)) <==> (op.Adding? ==> CrashExists(s, op.crashIdx))
  {
    var s' := Step(s, op);
    match op
    case Inserting(_, _, _, _) =>
      forall i | i in s.imgs ensures CrashExists(s', i.crashIdx) {
        var c :| c in s.crashes && c.crashIdx == i.crashIdx;
        assert c in s'.crashes;
      }
    case Adding(crashIdx, flag, content) => AddImageInStep(s, crashIdx, flag, content);
    case Deleting(crashIdx) =>
      ClearKeepsOthers(s, crashIdx);
      forall i | i in s'.imgs ensures CrashExists(s', i.crashIdx) {
        var c :| c in s.crashes && c.crashIdx == i.crashIdx;
        assert c in s'.crashes;
      }
    case Updating(crashIdx, date, memo, location) =>
      ClearKeepsOthers(s, crashIdx);
      forall i | i in s'.imgs ensures CrashExists(s', i.crashIdx) {
        EditedIds(s, crashIdx, date, memo, location, i.crashIdx);
      }
  }

  /** Images are only ever added to crashes that exist at the time. */
  ghost predicate ToCrashes(s: State, ops: seq<Op>)
    decreases ops
  {
    ops == [] || ((ops[0].Adding? ==> CrashExists(s, ops[0].crashIdx)) && ToCrashes(Step(s, ops[0]), ops[1..]))
  }

  ghost predicate AlwaysInStep(s: State, ops: seq<Op>)
    decreases ops
  {
    InStep(s) && (ops == [] || AlwaysInStep(Step(s, ops[0]), ops[1..]))
  }

  /** A run keeps the directory and the table in step throughout exactly when images are
      only added to existing crashes. */
  lemma {:induction false} RunInStep(s: State, ops: seq<Op>)
    requires InStep(s)
    ensures AlwaysInStep(s, ops) <==> ToCrashes(s, ops)
    decreases ops
  {
    if ops == [] {
    } else {
      StepInStep(s, ops[0]);
      if InStep(Step(s, ops[0])) {
        RunInStep(Step(s, ops[0]), ops[1..]);
      }
    }
  }

  /** A new crash starts without images, even when it takes over a deleted crash's id. */
  lemma NewCrashHasNoImages(s: State)
    requires InStep(s)
    ensures !CrashExists(s, NewCrashIdx(s))
    ensures Lookup(s.imgs, ImgCrash, Some(NewCrashIdx(s))) == []
  {
    var n := NewCrashIdx(s);
    forall c | c in s.crashes ensures c.crashIdx != n {
      assert CrashKey(c) == c.crashIdx;
    }
    EmptyOrMember(Lookup(s.imgs, ImgCrash, Some(n)));
  }

  /** An image uploaded for an id that no crash has yet turns up on the next crash. */
  lemma StrayImageAdopted(s: State, flag: nat, content: string, carIdx: int, date: string, memo: string,
      location: string)
    ensures var n := NewCrashIdx(s);
            var s' := InsertCrash(AddImage(s, n, flag, content), carIdx, date, memo, location);
            CrashExists(s', n) && CrashImg(n, FileName(n, flag)) in Lookup(s'.imgs, ImgCrash, Some(n))
  {
    var n := NewCrashIdx(s);
    var s' := InsertCrash(AddImage(s, n, flag, content), carIdx, date, memo, location);
    assert s'.crashes[|s.crashes|].crashIdx == n;
    assert CrashImg(n, FileName(n, flag)) in s'.imgs;
  }
}
