/** The use cases as the service runs them: each reads its tables, then changes them one write at a
    time, and stops at the first write that fails. */
module DriveUseCase {
  import opened Basics
  import opened Storage
  import opened StorageWrites
  import opened TrashLife
  import opened Owners
  import opened EmptyTrash
  import Ledger
  import Spec = Storage

  /** What every use case but uploads, restores and purges keeps, whatever fails: the invariants, the content
      of live files, and an owner for every stored file. */
  ghost predicate Keeps(s: State, t: State) {
    Safe(t) && (LiveBacked(s) ==> LiveBacked(t)) && (NoLeak(s) ==> NoLeak(t))
  }

  /** What any single use case keeps, and exactly when it does not. */
  lemma {:induction false} UseCaseKeeps(s: State, lk: Lookup, op: Op)
    requires Safe(s)
    ensures var t := Step(s, lk, op);
            && Safe(t)
            && (LiveBacked(s) ==> (LiveBacked(t) <==> !Dangles(s, op)))
            && (NoLeak(s) ==> (NoLeak(t) <==> !Orphans(s, op)))
            && (TrashMatches(s) ==> (TrashMatches(t) <==> !Mismatches(s, lk, op)))
  {
    SafeIsKnown(s);
    hide Step, NoLeak, LiveBacked, TrashMatches, Safe, Dangles, Orphans, Mismatches;
    StepKeepsSafe(s, lk, op);
    if LiveBacked(s) {
      StepKeepsLiveBackedExactly(s, lk, op);
    }
    if NoLeak(s) {
      StepKeepsNoLeakExactly(s, lk, op);
    }
    if TrashMatches(s) {
      StepKeepsMatchesExactly(s, lk, op);
    }
  }

  lemma SafeIsKnown(s: State)
    requires Safe(s)
    ensures Known(s)
  {
  }

  lemma UploadKeeps(s: State, user: string, q: UploadReq, f: UploadFaults)
    requires Safe(s)
    ensures var t := Spec.Upload(s, user, q, f).0;
            && Safe(t) && (LiveBacked(s) ==> LiveBacked(t)) && (TrashMatches(s) ==> TrashMatches(t))
            && (NoLeak(s) ==> (NoLeak(t) <==> f.info || !f.link))
  {
    var op := DoUpload(user, q, f);
    UseCaseKeeps(s, LiveOnly, op);
    assert Step(s, LiveOnly, op) == Spec.Upload(s, user, q, f).0;
    hide Step, NoLeak, LiveBacked, TrashMatches, Safe;
  }

  lemma PrecheckKeeps(s: State, user: string, q: PrecheckReq, f: PrecheckFaults)
    requires Safe(s)
    ensures var t := Spec.Precheck(s, user, q, f).0;
            Keeps(s, t) && (TrashMatches(s) ==> (TrashMatches(t) <==> !PrecheckMismatches(s, user, q, f)))
  {
    var op := DoPrecheck(user, q, f);
    UseCaseKeeps(s, LiveOnly, op);
    assert Step(s, LiveOnly, op) == Spec.Precheck(s, user, q, f).0;
    hide Step, NoLeak, LiveBacked, TrashMatches, Safe, PrecheckMismatches;
  }

  lemma TrashKeeps(s: State, lk: Lookup, user: string, x: Id, now: int, f: TrashFaults)
    requires Safe(s)
    ensures var t := Spec.MoveToRecycled(s, lk, user, x, now, f).0;
            Keeps(s, t) && (TrashMatches(s) ==> (TrashMatches(t) <==> !TrashMismatches(s, lk, user, x, f)))
  {
    var op := DoTrash(user, x, now, f);
    UseCaseKeeps(s, lk, op);
    assert Step(s, lk, op) == Spec.MoveToRecycled(s, lk, user, x, now, f).0;
    hide Step, NoLeak, LiveBacked, TrashMatches, Safe, TrashMismatches;
  }

  lemma EditKeeps(s: State, lk: Lookup, op: Op)
    requires Safe(s) && (op.DoMove? || op.DoRename? || op.DoSetPublic?)
    ensures Keeps(s, Step(s, lk, op)) && (TrashMatches(s) ==> TrashMatches(Step(s, lk, op)))
  {
    UseCaseKeeps(s, lk, op);
    hide Step, NoLeak, LiveBacked, TrashMatches, Safe;
  }

  lemma MoveKeeps(s: State, lk: Lookup, user: string, x: Id, dir: string, fails: bool)
    requires Safe(s)
    ensures var t := Spec.MoveFile(s, lk, user, x, dir, fails).0; Keeps(s, t) && (TrashMatches(s) ==> TrashMatches(t))
  {
    hide Keeps, TrashMatches, Safe;
    EditKeeps(s, lk, DoMove(user, x, dir, fails));
  }

  lemma RenameKeeps(s: State, lk: Lookup, order: seq<Id>, user: string, x: Id, name: string, fails: bool)
    requires Safe(s)
    ensures var t := Spec.RenameFile(s, lk, order, user, x, name, fails).0; Keeps(s, t) && (TrashMatches(s) ==> TrashMatches(t))
  {
    hide Keeps, TrashMatches, Safe;
    EditKeeps(s, lk, DoRename(user, x, name, order, fails));
  }

  lemma PublicKeeps(s: State, lk: Lookup, user: string, x: Id, public: bool, fails: bool)
    requires Safe(s)
    ensures var t := Spec.SetPublic(s, lk, user, x, public, fails).0; Keeps(s, t) && (TrashMatches(s) ==> TrashMatches(t))
  {
    hide Keeps, TrashMatches, Safe;
    EditKeeps(s, lk, DoSetPublic(user, x, public, fails));
  }

  lemma RestoreKeeps(s: State, user: string, rid: Id, root: Option<nat>, f: RestoreFaults)
    requires Safe(s)
    ensures var t := Spec.Restore(s, user, rid, root, f).0;
            && Safe(t)
            && (LiveBacked(s) ==> (LiveBacked(t) <==> !Dangles(s, DoRestore(user, rid, root, f))))
            && (NoLeak(s) ==> NoLeak(t))
            && (TrashMatches(s) ==> (TrashMatches(t) <==> !RestoreMismatches(s, user, rid, root, f)))
  {
    var op := DoRestore(user, rid, root, f);
    UseCaseKeeps(s, LiveOnly, op);
    assert Step(s, LiveOnly, op) == Spec.Restore(s, user, rid, root, f).0;
    hide Step, NoLeak, LiveBacked, TrashMatches, Safe, Dangles, RestoreMismatches;
  }

  lemma PurgeKeeps(s: State, rid: Id, f: PurgeFaults)
    requires Safe(s)
    ensures var t := Purge(s, rid, f).0;
            && Safe(t)
            && (LiveBacked(s) ==> LiveBacked(t))
            && (NoLeak(s) ==> (NoLeak(t) <==> !PurgeOrphans(s, rid, f)))
            && (TrashMatches(s) ==> (TrashMatches(t) <==> !PurgeMismatches(s, rid, f)))
            && (TrashMatches(s) && NoLeak(s) ==> NoLeak(t))
  {
    var op := DoPurge(rid, f);
    UseCaseKeeps(s, LiveOnly, op);
    assert Step(s, LiveOnly, op) == Purge(s, rid, f).0;
    MatchedPurgeOrphansNothing(s, rid, f);
    hide Step, NoLeak, LiveBacked, TrashMatches, Safe, PurgeOrphans, PurgeMismatches;
  }

  lemma MatchedPurgeOrphansNothing(s: State, rid: Id, f: PurgeFaults)
    requires Safe(s)
    ensures TrashMatches(s) ==> !PurgeOrphans(s, rid, f)
  {
  }

  ghost predicate NoFaults(fs: seq<PurgeFaults>) {
    forall i | 0 <= i < |fs| :: fs[i] == NO_FAULTS
  }

  lemma NothingIsLeft(s: State, user: string, ids: seq<Id>, fs: seq<PurgeFaults>)
    requires |fs| == |ids| && ListsTrash(s, user, ids, EMPTY_LIMIT)
    ensures TrashMatches(s) && |TrashOf(s, user)| <= EMPTY_LIMIT && NoFaults(fs)
            ==> TrashOf(PurgeAll(s, ids, fs).0, user) == {} && PurgeAll(s, ids, fs).1 == |ids|
  {
    if TrashMatches(s) && |TrashOf(s, user)| <= EMPTY_LIMIT && NoFaults(fs) {
      assert fs == Faultless(|ids|);
      EmptyClearsTrash(s, user, ids);
      hide TrashMatches, PurgeAll, ListsTrash, Emptied;
      assert TrashOf(PurgeAll(s, ids, fs).0, user) == {};
    }
  }

  lemma NothingOldIsLeft(s: State, before: int, ids: seq<Id>, fs: seq<PurgeFaults>)
    requires |fs| == |ids| && ListsExpired(s, before, ids)
    ensures TrashMatches(s) && NoFaults(fs) ==> TrashedSince(PurgeAll(s, ids, fs).0, before)
  {
    hide TrashMatches, PurgeAll;
    if TrashMatches(s) && NoFaults(fs) {
      assert fs == Faultless(|ids|);
      CleanExpiredClears(s, before, ids);
    }
  }

  predicate TrashedSince(s: State, before: int) {
    forall r <- s.recycled :: s.recycled[r].createdAt >= before
  }

  class Drive {
    var userFiles: map<Id, UserFile>
    var fileInfos: map<Id, FileInfo>
    var recycled: map<Id, Recycled>
    var users: map<string, User>
    var dirs: Directory.Tree
    var next: Id
    const lookup: Lookup

    function View(): State
      reads this
    {
      State(userFiles, fileInfos, recycled, users, dirs, next)
    }

    /** Identifiers are fresh, encrypted files unshared, and public files plain. */
    ghost predicate Valid()
      reads this
    {
      Safe(View())
    }

    constructor (lookup: Lookup, s: State)
      requires Safe(s)
      ensures Valid() && View() == s && this.lookup == lookup
    {
      this.lookup := lookup;
      userFiles, fileInfos, recycled := s.userFiles, s.fileInfos, s.recycled;
      users, dirs, next := s.users, s.dirs, s.next;
    }

    // ----- upload -----

    /** The records that mergeAndSave and handleSingleFile write once the bytes are in place. */
    method SaveUpload(user: string, q: UploadReq, f: UploadFaults) returns (r: Outcome)
      requires Valid()
      modifies this
      ensures (View(), r) == Spec.Upload(old(View()), user, q, f)
      ensures Valid() && (old(LiveBacked(View())) ==> LiveBacked(View()))
      ensures old(NoLeak(View())) ==> (NoLeak(View()) <==> f.info || !f.link)
      ensures old(TrashMatches(View())) ==> TrashMatches(View())
    {
      UploadKeeps(View(), user, q, f);
      hide Keeps, Safe, LiveBacked, NoLeak, TrashMatches, Dangles, TrashMismatches, PrecheckMismatches, PurgeMismatches, PurgeOrphans;
      var info := FileInfo(q.original, q.size, q.isEnc, q.signature, "", "", "", "");
      info := FillHashes(info, q.md5s);
      if f.info {
        return Failed;
      }
      var file := next;
      fileInfos, next := fileInfos[file := info], next + 1;
      if f.link {
        return Failed;
      }
      userFiles, next := userFiles[next := UserFile(user, file, q.name, q.dir, false, false)], next + 1;
      return Ok;
    }

    method FillHashes(info: FileInfo, md5s: seq<string>) returns (r: FileInfo)
      ensures r == info.(first := if |md5s| > 0 then md5s[0] else info.first,
                         second := if |md5s| > 1 then md5s[1] else info.second,
                         third := if |md5s| > 2 then md5s[2] else info.third)
    {
      r := info;
      if |md5s| > 0 {
        r := r.(first := md5s[0]);
      }
      if |md5s| > 1 {
        r := r.(second := md5s[1]);
      }
      if |md5s| > 2 {
        r := r.(third := md5s[2]);
      }
    }

    method Precheck(user: string, q: PrecheckReq, f: PrecheckFaults) returns (r: PrecheckOutcome)
      requires Valid()
      modifies this
      ensures (View(), r) == Spec.Precheck(old(View()), user, q, f)
      ensures Valid() && Keeps(old(View()), View())
      ensures old(TrashMatches(View())) ==> (TrashMatches(View()) <==> !old(PrecheckMismatches(View(), user, q, f)))
    {
      PrecheckKeeps(View(), user, q, f);
      hide Keeps, Safe, LiveBacked, NoLeak, TrashMatches, Dangles, TrashMismatches, PrecheckMismatches, PurgeMismatches, PurgeOrphans;
      if user !in users {
        return UserMissing;
      }
      var u := users[user];
      if u.space > 0 && u.free < q.size {
        return InsufficientSpace;
      }
      if q.signature != "" {
        var done := TryInstantUpload(user, u, q, f);
        if done {
          return AlreadyDone;
        }
      }
      if f.task || f.cache {
        return NotOpened;
      }
      return Proceed;
    }

    method TryInstantUpload(user: string, u: User, q: PrecheckReq, f: PrecheckFaults) returns (done: bool)
      requires user in users && users[user] == u && q.signature != ""
      requires u.space > 0 ==> u.free >= q.size
      modifies this
      ensures (View(), if done then AlreadyDone else Opened(f)) == Spec.Precheck(old(View()), user, q, f)
    {
      var candidate := BySignature(View(), q.signature, q.size);
      if candidate.None? || fileInfos[candidate.value].isEnc {
        return false;
      }
      var c := fileInfos[candidate.value];
      var matched := false;
      if |q.md5s| >= 3 {
        matched := c.first == q.md5s[0] && c.second == q.md5s[1] && c.third == q.md5s[2];
      } else if |q.md5s| == 1 {
        matched := c.fileHash == q.md5s[0];
      }
      if !matched || f.link {
        return false;
      }
      var link := next;
      userFiles, next := userFiles[link := UserFile(user, candidate.value, q.name, q.dir, false, false)], next + 1;
      if u.space > 0 {
        if f.debit {
          if !f.rollback {
            userFiles := userFiles[link := userFiles[link].(trashed := true)];
          }
          return false;
        }
        users := users[user := u.(free := u.free - q.size)];
      }
      return true;
    }

    // ----- trash -----

    method MoveToRecycled(user: string, x: Id, now: int, f: TrashFaults) returns (r: Outcome)
      requires Valid()
      modifies this
      ensures (View(), r) == Spec.MoveToRecycled(old(View()), lookup, user, x, now, f)
      ensures Valid() && Keeps(old(View()), View())
      ensures old(TrashMatches(View())) ==> (TrashMatches(View()) <==> !old(TrashMismatches(View(), lookup, user, x, f)))
    {
      TrashKeeps(View(), lookup, user, x, now, f);
      hide Keeps, Safe, LiveBacked, NoLeak, TrashMatches, Dangles, TrashMismatches, PrecheckMismatches, PurgeMismatches, PurgeOrphans;
      if !Finds(View(), lookup, user, x) {
        return NotFound;
      }
      if f.soft {
        return Failed;
      }
      userFiles := userFiles[x := userFiles[x].(trashed := true)];
      if f.record {
        return Failed;
      }
      recycled, next := recycled[next := Recycled(user, x, userFiles[x].file, now)], next + 1;
      return Ok;
    }

    /** Each file is looked up again and moved on its own; failures are only counted. */
    method DeleteFiles(user: string, xs: seq<Id>, now: int, fs: seq<TrashFaults>) returns (success: nat, failed: nat)
      requires |fs| == |xs|
      requires Valid()
      modifies this
      ensures success + failed == |xs|
      ensures View() == Run(old(View()), lookup, TrashEach(user, xs, now, fs))
      ensures Valid()
      ensures success == Trashings(old(View()), lookup, user, xs, now, fs)
      ensures old(LiveBacked(View())) ==> LiveBacked(View())
      ensures old(NoLeak(View())) ==> NoLeak(View())
    {
      hide Safe, LiveBacked;
      success, failed := 0, 0;
      var i := 0;
      while i < |xs|
        invariant i <= |xs| && success + failed == i
        invariant Valid() && (old(LiveBacked(View())) ==> LiveBacked(View())) && (old(NoLeak(View())) ==> NoLeak(View()))
        invariant Run(View(), lookup, TrashEach(user, xs[i..], now, fs[i..])) == Run(old(View()), lookup, TrashEach(user, xs, now, fs))
        invariant success + Trashings(View(), lookup, user, xs[i..], now, fs[i..]) == Trashings(old(View()), lookup, user, xs, now, fs)
      {
        ghost var before := View();
        assert xs[i..][1..] == xs[i + 1..] && fs[i..][1..] == fs[i + 1..];
        TrashEachFirst(before, lookup, user, xs[i..], now, fs[i..]);
        if !Finds(View(), lookup, user, xs[i]) {
          failed := failed + 1;
        } else {
          var r := MoveToRecycled(user, xs[i], now, fs[i]);
          if r != Ok {
            failed := failed + 1;
          } else {
            success := success + 1;
          }
        }
        i := i + 1;
      }
    }

    method Restore(user: string, rid: Id, root: Option<nat>, f: RestoreFaults) returns (r: Outcome)
      requires Valid()
      modifies this
      ensures (View(), r) == Spec.Restore(old(View()), user, rid, root, f)
      ensures Valid()
      ensures old(LiveBacked(View())) ==> (LiveBacked(View()) <==> !old(Dangles(View(), DoRestore(user, rid, root, f))))
      ensures old(NoLeak(View())) ==> NoLeak(View())
      ensures old(TrashMatches(View())) ==> (TrashMatches(View()) <==> !old(RestoreMismatches(View(), user, rid, root, f)))
    {
      RestoreKeeps(View(), user, rid, root, f);
      hide Keeps, Safe, LiveBacked, NoLeak, TrashMatches, Dangles, RestoreMismatches, Target;
      if rid !in recycled {
        return NotFound;
      }
      var rec := recycled[rid];
      if rec.user != user {
        return Forbidden;
      }
      if rec.userFile !in userFiles {
        return NotFound;
      }
      var uf := userFiles[rec.userFile];
      var target := FindTarget(uf.dir, root);
      if target.None? {
        return NoRoot;
      }
      if f.clear {
        return Failed;
      }
      userFiles := userFiles[rec.userFile := uf.(trashed := false, dir := target.value)];
      if f.record {
        return Failed;
      }
      recycled := recycled - {rid};
      return Ok;
    }

    method FindTarget(dir: string, root: Option<nat>) returns (target: Option<string>)
      ensures target == Target(View(), dir, root)
    {
      target := Some(dir);
      if dir != "" && dir != "0" {
        var path := ScanInt(dir);
        if path.Some? && path.value > 0 && path.value !in dirs.rows {
          target := if root.None? then None else Some(Itoa(root.value));
        }
      }
    }

    method DeletePermanently(user: string, rid: Id, f: PurgeFaults) returns (r: Outcome)
      requires Valid()
      modifies this
      ensures rid in old(recycled) && old(recycled)[rid].user != user ==> r == Forbidden && View() == old(View())
      ensures !(rid in old(recycled) && old(recycled)[rid].user != user) ==> (View(), r) == Purge(old(View()), rid, f)
      ensures Valid()
      ensures old(LiveBacked(View())) ==> LiveBacked(View())
      ensures r != Forbidden && old(NoLeak(View())) ==> (NoLeak(View()) <==> !old(PurgeOrphans(View(), rid, f)))
      ensures r != Forbidden && old(TrashMatches(View())) ==> (TrashMatches(View()) <==> !old(PurgeMismatches(View(), rid, f)))
    {
      PurgeKeeps(View(), rid, f);
      hide Keeps, Safe, LiveBacked, NoLeak, TrashMatches, Dangles, TrashMismatches, PrecheckMismatches, PurgeMismatches, PurgeOrphans;
      if rid !in recycled {
        return NotFound;
      }
      if recycled[rid].user != user {
        return Forbidden;
      }
      r := PermanentlyDelete(rid, recycled[rid], f);
    }

    method PermanentlyDelete(rid: Id, rec: Recycled, f: PurgeFaults) returns (r: Outcome)
      modifies this
      ensures (View(), r) == Spec.PermanentlyDelete(old(View()), rid, rec, f)
    {
      if rec.userFile !in userFiles {
        r := DeleteRecord(rid, f);
        return;
      }
      var file := userFiles[rec.userFile].file;
      if f.count {
        return Failed;
      }
      var activeRefs := ActiveRefs(View(), file);
      if activeRefs == 0 && file in fileInfos {
        ReturnSpace(rec.user, fileInfos[file].size, f.credit);
        if f.info {
          return Failed;
        }
        fileInfos := fileInfos - {file};
      }
      if f.link {
        return Failed;
      }
      userFiles := userFiles - {rec.userFile};
      r := DeleteRecord(rid, f);
    }

    method ReturnSpace(user: string, size: nat, fails: bool)
      modifies this
      ensures View() == Spec.ReturnSpace(old(View()), user, size, fails)
    {
      if user !in users {
        return;
      }
      var u := users[user];
      if u.space <= 0 {
        return;
      }
      u := u.(free := u.free + size);
      if !fails {
        users := users[user := u];
      }
    }

    method DeleteRecord(rid: Id, f: PurgeFaults) returns (r: Outcome)
      modifies this
      ensures (View(), r) == Spec.DropRecord(old(View()), rid, f)
    {
      if rid !in recycled {
        return NotFound;
      }
      if f.record {
        return Failed;
      }
      recycled := recycled - {rid};
      return Ok;
    }

    /** The loop shared by Empty and CleanExpired. */
    method PurgeListed(ids: seq<Id>, fs: seq<PurgeFaults>) returns (deleted: nat, failed: nat)
      requires |fs| == |ids|
      requires Valid()
      modifies this
      ensures (View(), deleted) == PurgeAll(old(View()), ids, fs)
      ensures Valid()
      ensures deleted + failed == |ids|
      ensures old(LiveBacked(View())) ==> LiveBacked(View())
      ensures old(NoLeak(View()) && TrashMatches(View())) && NoFaults(fs)
              ==> NoLeak(View()) && TrashMatches(View())
    {
      hide Safe, LiveBacked, NoLeak, TrashMatches, Spec.PermanentlyDelete;
      deleted, failed := 0, 0;
      var i := 0;
      while i < |ids|
        invariant i <= |ids| && deleted + failed == i
        invariant Valid() && (old(LiveBacked(View())) ==> LiveBacked(View()))
        invariant old(NoLeak(View()) && TrashMatches(View())) && NoFaults(fs)
                  ==> NoLeak(View()) && TrashMatches(View())
        invariant var (t, n) := PurgeAll(View(), ids[i..], fs[i..]); (t, deleted + n) == PurgeAll(old(View()), ids, fs)
      {
        assert ids[i..][1..] == ids[i + 1..] && fs[i..][1..] == fs[i + 1..];
        PurgeKeeps(View(), ids[i], fs[i]);
        assert NoFaults(fs) ==> fs[i] == NO_FAULTS;
        var r := NotFound;
        if ids[i] in recycled {
          r := PermanentlyDelete(ids[i], recycled[ids[i]], fs[i]);
        }
        if r == Ok {
          deleted := deleted + 1;
        } else {
          failed := failed + 1;
        }
        i := i + 1;
      }
    }

    /** `ids` is what the repository lists for the user. */
    method Empty(user: string, ids: seq<Id>, fs: seq<PurgeFaults>) returns (deleted: nat, failed: nat)
      requires |fs| == |ids| && ListsTrash(View(), user, ids, EMPTY_LIMIT)
      requires Valid()
      modifies this
      ensures (View(), deleted) == PurgeAll(old(View()), ids, fs)
      ensures Valid()
      ensures deleted + failed == |ids|
      ensures old(LiveBacked(View())) ==> LiveBacked(View())
      ensures old(NoLeak(View()) && TrashMatches(View())) && NoFaults(fs)
              ==> NoLeak(View()) && TrashMatches(View())
      ensures old(TrashMatches(View()) && |TrashOf(View(), user)| <= EMPTY_LIMIT) && NoFaults(fs)
              ==> TrashOf(View(), user) == {} && failed == 0
    {
      NothingIsLeft(View(), user, ids, fs);
      deleted, failed := PurgeListed(ids, fs);
    }

    method CleanExpired(before: int, ids: seq<Id>, fs: seq<PurgeFaults>) returns (deleted: nat)
      requires |fs| == |ids| && ListsExpired(View(), before, ids)
      requires Valid()
      modifies this
      ensures (View(), deleted) == PurgeAll(old(View()), ids, fs)
      ensures Valid()
      ensures old(LiveBacked(View())) ==> LiveBacked(View())
      ensures old(NoLeak(View()) && TrashMatches(View())) && NoFaults(fs)
              ==> NoLeak(View()) && TrashMatches(View())
      ensures old(TrashMatches(View())) && NoFaults(fs)
              ==> TrashedSince(View(), before)
    {
      var failed;
      NothingOldIsLeft(View(), before, ids, fs);
      deleted, failed := PurgeListed(ids, fs);
    }

    // ----- edits -----

    method MoveFile(user: string, x: Id, dir: string, fails: bool) returns (r: Outcome)
      requires Valid()
      modifies this
      ensures (View(), r) == Spec.MoveFile(old(View()), lookup, user, x, dir, fails)
      ensures Valid() && Keeps(old(View()), View()) && (old(TrashMatches(View())) ==> TrashMatches(View()))
    {
      MoveKeeps(View(), lookup, user, x, dir, fails);
      hide Keeps, Safe, LiveBacked, NoLeak, TrashMatches, Dangles, TrashMismatches, PrecheckMismatches, PurgeMismatches, PurgeOrphans;
      if !Finds(View(), lookup, user, x) {
        return NotFound;
      }
      var uf := userFiles[x].(dir := dir);
      if fails {
        return Failed;
      }
      userFiles := userFiles[x := uf];
      return Ok;
    }

    /** `order` is the order in which the repository lists files. */
    method RenameFile(order: seq<Id>, user: string, x: Id, name: string, fails: bool) returns (r: Outcome)
      requires Valid()
      modifies this
      ensures (View(), r) == Spec.RenameFile(old(View()), lookup, order, user, x, name, fails)
      ensures Valid() && Keeps(old(View()), View()) && (old(TrashMatches(View())) ==> TrashMatches(View()))
    {
      RenameKeeps(View(), lookup, order, user, x, name, fails);
      hide Keeps, Safe, LiveBacked, NoLeak, TrashMatches, Dangles, TrashMismatches, PrecheckMismatches, PurgeMismatches, PurgeOrphans;
      var newName := Trim(name);
      if newName == "" {
        return EmptyName;
      }
      if !Finds(View(), lookup, user, x) {
        return NotFound;
      }
      var uf := userFiles[x];
      var siblings := Siblings(View(), order, user, x);
      for i := 0 to |siblings|
        invariant View() == old(View())
        invariant forall y <- siblings[..i] :: !(HasName(View(), y, newName) && y != x)
      {
        if HasName(View(), siblings[i], newName) && siblings[i] != x {
          return NameConflict;
        }
      }
      if fails {
        return Failed;
      }
      userFiles := userFiles[x := uf.(name := newName)];
      return Ok;
    }

    method SetPublic(user: string, x: Id, public: bool, fails: bool) returns (r: Outcome)
      requires Valid()
      modifies this
      ensures (View(), r) == Spec.SetPublic(old(View()), lookup, user, x, public, fails)
      ensures Valid() && Keeps(old(View()), View()) && (old(TrashMatches(View())) ==> TrashMatches(View()))
    {
      PublicKeeps(View(), lookup, user, x, public, fails);
      hide Keeps, Safe, LiveBacked, NoLeak, TrashMatches, Dangles, TrashMismatches, PrecheckMismatches, PurgeMismatches, PurgeOrphans;
      if !Finds(View(), lookup, user, x) {
        return NotFound;
      }
      var uf := userFiles[x];
      if public && uf.file in fileInfos && fileInfos[uf.file].isEnc {
        return EncryptedPublic;
      }
      if fails {
        return Failed;
      }
      userFiles := userFiles[x := uf.(isPublic := public)];
      return Ok;
    }
  }

  // ----- DeleteFiles as a run -----

  function TrashEach(user: string, xs: seq<Id>, now: int, fs: seq<TrashFaults>): seq<Op>
    requires |fs| == |xs|
  {
    seq(|xs|, i requires 0 <= i < |xs| => DoTrash(user, xs[i], now, fs[i]))
  }

  /** How many of the files end up newly recorded. */
  function Trashings(s: State, lk: Lookup, user: string, xs: seq<Id>, now: int, fs: seq<TrashFaults>): nat
    requires |fs| == |xs|
    decreases |xs|
  {
    if xs == [] then 0
    else
      var (t, outcome) := Spec.MoveToRecycled(s, lk, user, xs[0], now, fs[0]);
      (if outcome.Ok? then 1 else 0) + Trashings(t, lk, user, xs[1..], now, fs[1..])
  }

  lemma TrashEachFirst(s: State, lk: Lookup, user: string, xs: seq<Id>, now: int, fs: seq<TrashFaults>)
    requires |fs| == |xs| && xs != []
    ensures Run(s, lk, TrashEach(user, xs, now, fs))
            == Run(Spec.MoveToRecycled(s, lk, user, xs[0], now, fs[0]).0, lk, TrashEach(user, xs[1..], now, fs[1..]))
  {
    assert TrashEach(user, xs, now, fs)[1..] == TrashEach(user, xs[1..], now, fs[1..]);
  }

  lemma TrashAddsRecord(s: State, lk: Lookup, user: string, x: Id, now: int, f: TrashFaults)
    requires Known(s)
    ensures var (t, outcome) := Spec.MoveToRecycled(s, lk, user, x, now, f);
            Known(t) && |t.recycled| == |s.recycled| + if outcome.Ok? then 1 else 0
  {
  }

  /** Each success adds exactly one record. */
  lemma {:induction false} SuccessesAreRecords(s: State, lk: Lookup, user: string, xs: seq<Id>, now: int, fs: seq<TrashFaults>)
    requires |fs| == |xs| && Known(s)
    ensures |Run(s, lk, TrashEach(user, xs, now, fs)).recycled| == |s.recycled| + Trashings(s, lk, user, xs, now, fs)
    decreases |xs|
  {
    if xs != [] {
      var t := Spec.MoveToRecycled(s, lk, user, xs[0], now, fs[0]).0;
      TrashAddsRecord(s, lk, user, xs[0], now, fs[0]);
      TrashEachFirst(s, lk, user, xs, now, fs);
      hide Spec.MoveToRecycled, Known, Run;
      SuccessesAreRecords(t, lk, user, xs[1..], now, fs[1..]);
    }
  }
}
