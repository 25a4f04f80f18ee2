/** Concrete runs showing where a plausible property stops holding. */
module StorageWitnesses {
  import opened Basics
  import opened Storage
  import opened StorageWrites
  import opened TrashLife
  import opened Owners

  const NO_DIRS: Directory.Tree := Directory.Dirs(map[], 1)

  /** Two users, one with a quota of 100 bytes, and nothing stored. */
  const START: State := State(map[], map[], map[], map["a" := User(100, 100), "b" := User(0, 0)], NO_DIRS, 0)

  const PLAIN: FileInfo := FileInfo("f", 5, false, "sig", "", "x", "y", "z")

  const STORED: State :=
    START.(userFiles := map[1 := UserFile("a", 0, "f", "", false, false)], fileInfos := map[0 := PLAIN], next := 2)

  const UPLOAD: Op := DoUpload("a", UploadReq("f", "f", "", 5, false, "sig", ["x", "y", "z"]), UploadFaults(false, false))
  const SHARE: Op := DoPrecheck("b", PrecheckReq("f", "", 5, "sig", ["x", "y", "z"]), PrecheckFaults(false, false, false, false, false))

  function Trash(user: string, x: Id): Op {
    DoTrash(user, x, 0, TrashFaults(false, false))
  }

  function Recover(user: string, rid: Id): Op {
    DoRestore(user, rid, None, RestoreFaults(false, false))
  }

  /** A run one step longer. */
  lemma Then(lk: Lookup, ops: seq<Op>, t: State, op: Op, u: State) returns (longer: seq<Op>)
    requires Run(START, lk, ops) == t && AllFailureFree(ops)
    requires Step(t, lk, op) == u && op.FailureFree()
    ensures Run(START, lk, longer) == u && AllFailureFree(longer)
  {
    longer := ops + [op];
    RunSnoc(START, lk, ops, op);
  }

  lemma UploadStores(lk: Lookup) returns (ops: seq<Op>)
    ensures AllFailureFree(ops) && Run(START, lk, ops) == STORED
  {
    ops := Then(lk, [], START, UPLOAD, STORED);
  }

  // ----- two users, one file -----

  function Shared(a: bool, b: bool, records: map<Id, Recycled>, next: Id): State {
    State(map[1 := UserFile("a", 0, "f", "", false, a), 2 := UserFile("b", 0, "f", "", false, b)],
          map[0 := PLAIN], records, START.users, NO_DIRS, next)
  }

  const RECORD_A: Recycled := Recycled("a", 1, 0, 0)
  const RECORD_B: Recycled := Recycled("b", 2, 0, 0)

  const PURGED: State :=
    State(map[2 := UserFile("b", 0, "f", "", false, true)], map[], map[4 := RECORD_B],
          map["a" := User(100, 105), "b" := User(0, 0)], NO_DIRS, 5)

  const DANGLING: State := PURGED.(userFiles := map[2 := UserFile("b", 0, "f", "", false, false)], recycled := map[])

  lemma SharingLinks()
    ensures Step(STORED, LiveOnly, SHARE) == Shared(false, false, map[], 3)
  {
    assert Matches(STORED, "sig", 5) == {0};
    assert BySignature(STORED, "sig", 5) == Some(0);
  }

  lemma BothTrash()
    ensures Step(Shared(false, false, map[], 3), LiveOnly, Trash("a", 1)) == Shared(true, false, map[3 := RECORD_A], 4)
    ensures Step(Shared(true, false, map[3 := RECORD_A], 4), LiveOnly, Trash("b", 2))
            == Shared(true, true, map[3 := RECORD_A, 4 := RECORD_B], 5)
  {
  }

  lemma FirstPurges()
    ensures Step(Shared(true, true, map[3 := RECORD_A, 4 := RECORD_B], 5), LiveOnly, DoPurge(3, NO_FAULTS)) == PURGED
  {
    var s := Shared(true, true, map[3 := RECORD_A, 4 := RECORD_B], 5);
    var t := Step(s, LiveOnly, DoPurge(3, NO_FAULTS));
    assert LiveRefs(s, 0) == {};
    assert t.users == PURGED.users;
    PurgeTables(s, 3);
    hide Purge, LiveRefs;
    assert t.userFiles == PURGED.userFiles;
    assert t.fileInfos == PURGED.fileInfos;
    assert t.recycled == PURGED.recycled;
  }

  lemma SecondRestores()
    ensures Step(PURGED, LiveOnly, Recover("b", 4)) == DANGLING
  {
    var t := Step(PURGED, LiveOnly, Recover("b", 4));
    assert t.userFiles == DANGLING.userFiles;
    assert t.recycled == DANGLING.recycled;
  }

  /** Two users share a file, both trash it, one purges it, the other restores: a live file without content. */
  lemma DanglingRestore() returns (ops: seq<Op>)
    ensures AllFailureFree(ops)
    ensures !LiveBacked(Run(START, LiveOnly, ops))
  {
    SharingLinks();
    BothTrash();
    FirstPurges();
    SecondRestores();
    hide Step, Run;
    ops := UploadStores(LiveOnly);
    ops := Then(LiveOnly, ops, STORED, SHARE, Shared(false, false, map[], 3));
    ops := Then(LiveOnly, ops, Shared(false, false, map[], 3), Trash("a", 1), Shared(true, false, map[3 := RECORD_A], 4));
    ops := Then(LiveOnly, ops, Shared(true, false, map[3 := RECORD_A], 4), Trash("b", 2),
                Shared(true, true, map[3 := RECORD_A, 4 := RECORD_B], 5));
    ops := Then(LiveOnly, ops, Shared(true, true, map[3 := RECORD_A, 4 := RECORD_B], 5), DoPurge(3, NO_FAULTS), PURGED);
    ops := Then(LiveOnly, ops, PURGED, Recover("b", 4), DANGLING);
    assert !DANGLING.userFiles[2].trashed && DANGLING.userFiles[2].file !in DANGLING.fileInfos;
  }

  // ----- one file, trashed twice -----

  function Own(trashed: bool, records: map<Id, Recycled>, next: Id): State {
    STORED.(userFiles := map[1 := UserFile("a", 0, "f", "", false, trashed)], recycled := records, next := next)
  }

  lemma TrashTwice()
    ensures Step(STORED, AnyRow, Trash("a", 1)) == Own(true, map[2 := RECORD_A], 3)
    ensures Step(Own(true, map[2 := RECORD_A], 3), AnyRow, Trash("a", 1)) == Own(true, map[2 := RECORD_A, 3 := RECORD_A], 4)
  {
  }

  lemma RestoreFirst()
    ensures Step(Own(true, map[2 := RECORD_A, 3 := RECORD_A], 4), AnyRow, Recover("a", 2)) == Own(false, map[3 := RECORD_A], 4)
  {
    var t := Step(Own(true, map[2 := RECORD_A, 3 := RECORD_A], 4), AnyRow, Recover("a", 2));
    assert t.recycled == map[3 := RECORD_A];
  }

  lemma PurgeSecond()
    ensures Step(Own(false, map[3 := RECORD_A], 4), AnyRow, DoPurge(3, NO_FAULTS)) == STORED.(userFiles := map[], next := 4)
  {
    var s := Own(false, map[3 := RECORD_A], 4);
    var t := Step(s, AnyRow, DoPurge(3, NO_FAULTS));
    assert LiveRefs(s, 0) == {1};
    assert t.userFiles == map[];
    assert t.recycled == map[];
  }

  /** With a lookup that finds trashed rows, deleting a file twice, restoring it and purging the second
      record removes the live file and leaves its content stored with no owner. */
  lemma RetrashLeaks() returns (ops: seq<Op>)
    ensures AllFailureFree(ops)
    ensures !NoLeak(Run(START, AnyRow, ops)) && Run(START, AnyRow, ops).userFiles == map[]
  {
    TrashTwice();
    RestoreFirst();
    PurgeSecond();
    hide Step, Run;
    ops := UploadStores(AnyRow);
    ops := Then(AnyRow, ops, STORED, Trash("a", 1), Own(true, map[2 := RECORD_A], 3));
    ops := Then(AnyRow, ops, Own(true, map[2 := RECORD_A], 3), Trash("a", 1), Own(true, map[2 := RECORD_A, 3 := RECORD_A], 4));
    ops := Then(AnyRow, ops, Own(true, map[2 := RECORD_A, 3 := RECORD_A], 4), Recover("a", 2), Own(false, map[3 := RECORD_A], 4));
    var last := STORED.(userFiles := map[], next := 4);
    ops := Then(AnyRow, ops, Own(false, map[3 := RECORD_A], 4), DoPurge(3, NO_FAULTS), last);
    assert 0 in last.fileInfos && forall x :: !Refers(last, x, 0);
  }

  // ----- one file, uploaded and purged -----

  lemma PurgeOnly()
    ensures Step(STORED, LiveOnly, Trash("a", 1)) == Own(true, map[2 := RECORD_A], 3)
    ensures Step(Own(true, map[2 := RECORD_A], 3), LiveOnly, DoPurge(2, NO_FAULTS)).users
            == map["a" := User(100, 105), "b" := User(0, 0)]
  {
    assert LiveRefs(Own(true, map[2 := RECORD_A], 3), 0) == {};
  }

  /** Uploading does not debit but purging credits: free space can exceed the quota. */
  lemma FreeSpaceExceedsQuota() returns (ops: seq<Op>)
    ensures AllFailureFree(ops)
    ensures Run(START, LiveOnly, ops).users == map["a" := User(100, 105), "b" := User(0, 0)]
  {
    PurgeOnly();
    hide Step, Run;
    ops := UploadStores(LiveOnly);
    ops := Then(LiveOnly, ops, STORED, Trash("a", 1), Own(true, map[2 := RECORD_A], 3));
    var last := Step(Own(true, map[2 := RECORD_A], 3), LiveOnly, DoPurge(2, NO_FAULTS));
    ops := Then(LiveOnly, ops, Own(true, map[2 := RECORD_A], 3), DoPurge(2, NO_FAULTS), last);
  }

  // ----- a restore that stops half-way -----

  const HALF_RESTORE: Op := DoRestore("a", 2, None, RestoreFaults(false, true))

  lemma RestoreHalfway()
    ensures Step(Own(true, map[2 := RECORD_A], 3), LiveOnly, HALF_RESTORE) == Own(false, map[2 := RECORD_A], 3)
  {
  }

  lemma PurgeLive()
    ensures Step(Own(false, map[2 := RECORD_A], 3), LiveOnly, DoPurge(2, NO_FAULTS)) == STORED.(userFiles := map[], next := 3)
  {
    var s := Own(false, map[2 := RECORD_A], 3);
    var t := Step(s, LiveOnly, DoPurge(2, NO_FAULTS));
    assert LiveRefs(s, 0) == {1};
    assert t.userFiles == map[];
    assert t.recycled == map[];
  }

  /** With the interface's lookup: one restore cannot delete its record, so the live file keeps it; purging
      the record then removes the live file and leaves its content stored with no owner. */
  lemma LiveFilePurged() returns (ops: seq<Op>)
    ensures |ops| == 4 && IsLive(Run(START, LiveOnly, ops[..3]), 1) && ops[3] == DoPurge(2, NO_FAULTS)
    ensures !NoLeak(Run(START, LiveOnly, ops)) && Run(START, LiveOnly, ops).userFiles == map[]
  {
    PurgeOnly();
    RestoreHalfway();
    PurgeLive();
    var trash, purge := Trash("a", 1), DoPurge(2, NO_FAULTS);
    var a, b := Own(true, map[2 := RECORD_A], 3), Own(false, map[2 := RECORD_A], 3);
    assert Step(START, LiveOnly, UPLOAD) == STORED;
    hide Step;
    ops := [UPLOAD, trash, HALF_RESTORE, purge];
    RunSnoc(START, LiveOnly, [], UPLOAD);
    RunSnoc(START, LiveOnly, [UPLOAD], trash);
    RunSnoc(START, LiveOnly, [UPLOAD, trash], HALF_RESTORE);
    RunSnoc(START, LiveOnly, [UPLOAD, trash, HALF_RESTORE], purge);
    assert [] + [UPLOAD] == [UPLOAD] && [UPLOAD] + [trash] == [UPLOAD, trash];
    assert [UPLOAD, trash] + [HALF_RESTORE] == [UPLOAD, trash, HALF_RESTORE] == ops[..3];
    assert ops[..3] + [purge] == ops;
    var last := STORED.(userFiles := map[], next := 3);
    assert 0 in last.fileInfos && forall x :: !Refers(last, x, 0);
  }

  // ----- a file trashed without a record -----

  const HALF_TRASH: Op := DoTrash("a", 1, 0, TrashFaults(false, true))

  /** The record of a trashed file cannot be created: the file is in the trash, nothing in the trash says so,
      and it cannot be restored from there. */
  lemma TrashedWithoutRecord() returns (ops: seq<Op>)
    ensures ops == [UPLOAD, HALF_TRASH] && TrashMatches(START)
    ensures !TrashMatches(Run(START, LiveOnly, ops)) && Run(START, LiveOnly, ops) == Own(true, map[], 2)
  {
    ops := [UPLOAD, HALF_TRASH];
    var t := Own(true, map[], 2);
    assert Step(START, LiveOnly, UPLOAD) == STORED;
    assert Step(STORED, LiveOnly, HALF_TRASH) == t;
    assert [] + [UPLOAD] == [UPLOAD] && [UPLOAD] + [HALF_TRASH] == ops;
    RunSnoc(START, LiveOnly, [], UPLOAD);
    RunSnoc(START, LiveOnly, [UPLOAD], HALF_TRASH);
    assert t.userFiles[1].trashed && forall r :: !RecordOf(t, r, 1);
  }

  // ----- an encrypted file purged half-way -----

  const SECRET: Op := DoUpload("a", UploadReq("f", "f", "", 5, true, "sig", ["x", "y", "z"]), UploadFaults(false, false))
  const HALF_PURGE: Op := DoPurge(2, NO_FAULTS.(link := true))

  function Hidden(trashed: bool, stored: bool, records: map<Id, Recycled>, free: int, next: Id): State {
    State(map[1 := UserFile("a", 0, "f", "", false, trashed)], if stored then map[0 := PLAIN.(isEnc := true)] else map[],
          records, map["a" := User(100, free), "b" := User(0, 0)], NO_DIRS, next)
  }

  lemma SecretStored()
    ensures Step(START, LiveOnly, SECRET) == Hidden(false, true, map[], 100, 2)
    ensures Step(Hidden(false, true, map[], 100, 2), LiveOnly, Trash("a", 1)) == Hidden(true, true, map[2 := RECORD_A], 100, 3)
  {
  }

  lemma SecretHalfPurged()
    ensures Step(Hidden(true, true, map[2 := RECORD_A], 100, 3), LiveOnly, HALF_PURGE) == Hidden(true, false, map[2 := RECORD_A], 105, 3)
  {
    var s, t := Hidden(true, true, map[2 := RECORD_A], 100, 3), Hidden(true, false, map[2 := RECORD_A], 105, 3);
    assert LiveRefs(s, 0) == {};
    var u := Step(s, LiveOnly, HALF_PURGE);
    assert u.fileInfos == t.fileInfos;
    assert u.users == t.users;
  }

  lemma SecretRestored()
    ensures Step(Hidden(true, false, map[2 := RECORD_A], 105, 3), LiveOnly, Recover("a", 2)) == Hidden(false, false, map[], 105, 3)
  {
    var u := Step(Hidden(true, false, map[2 := RECORD_A], 105, 3), LiveOnly, Recover("a", 2));
    assert u.recycled == map[];
  }

  /** The purge of an encrypted file deletes its FileInfo and fails to delete its UserFile; restored, the file is
      live and has no content. */
  lemma EncryptedStranded() returns (ops: seq<Op>)
    ensures ops == [SECRET, Trash("a", 1), HALF_PURGE, Recover("a", 2)]
    ensures var t := Run(START, LiveOnly, ops); IsLive(t, 1) && t.userFiles[1].file !in t.fileInfos
  {
    SecretStored();
    SecretHalfPurged();
    SecretRestored();
    hide Step, Run;
    var trash, recover := Trash("a", 1), Recover("a", 2);
    ops := [SECRET, trash, HALF_PURGE, recover];
    assert [] + [SECRET] == [SECRET] && [SECRET] + [trash] == [SECRET, trash];
    assert [SECRET, trash] + [HALF_PURGE] == [SECRET, trash, HALF_PURGE] && [SECRET, trash, HALF_PURGE] + [recover] == ops;
    NothingRun(LiveOnly);
    RunSnoc(START, LiveOnly, [], SECRET);
    RunSnoc(START, LiveOnly, [SECRET], trash);
    RunSnoc(START, LiveOnly, [SECRET, trash], HALF_PURGE);
    RunSnoc(START, LiveOnly, [SECRET, trash, HALF_PURGE], recover);
  }

  lemma NothingRun(lk: Lookup)
    ensures Run(START, lk, []) == START
  {
  }
}
