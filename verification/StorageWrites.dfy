/** Every use case seen as the single table writes it performs, and what no write can break. These
    facts hold after each write, so failures and half-finished calls are covered. */
module StorageWrites {
  import opened Basics
  import opened Storage

  datatype Write =
    | AddInfo(info: FileInfo)
    | AddLink(user: string, file: Id, name: string, dir: string)
    | MarkTrashed(x: Id)
    | MarkLive(x: Id, dir: string)
    | AddRecord(r: Recycled)
    | SetFree(user: string, free: int)
    | CutInfo(file: Id)
    | CutLink(x: Id)
    | CutRecord(rid: Id)
    | Edit(x: Id, name: string, dir: string, isPublic: bool)
    | SetTree(tree: Directory.Tree)

  ghost function Apply(s: State, w: Write): State {
    match w
    case AddInfo(info) => s.(fileInfos := s.fileInfos[s.next := info], next := s.next + 1)
    case AddLink(u, file, name, dir) => Link(s, u, file, name, dir)
    case MarkTrashed(x) => if x in s.userFiles then SoftDelete(s, x) else s
    case MarkLive(x, dir) =>
      if x in s.userFiles then s.(userFiles := s.userFiles[x := s.userFiles[x].(trashed := false, dir := dir)]) else s
    case AddRecord(r) => s.(recycled := s.recycled[s.next := r], next := s.next + 1)
    case SetFree(u, free) => if u in s.users then s.(users := s.users[u := s.users[u].(free := free)]) else s
    case CutInfo(file) => s.(fileInfos := s.fileInfos - {file})
    case CutLink(x) => s.(userFiles := s.userFiles - {x})
    case CutRecord(rid) => s.(recycled := s.recycled - {rid})
    case Edit(x, name, dir, public) =>
      if x in s.userFiles
      then s.(userFiles := s.userFiles[x := s.userFiles[x].(name := name, dir := dir, isPublic := public)]) else s
    case SetTree(tree) => s.(dirs := tree)
  }

  ghost predicate Encrypted(s: State, file: Id) {
    file in s.fileInfos && s.fileInfos[file].isEnc
  }

  ghost predicate Refers(s: State, x: Id, file: Id) {
    x in s.userFiles && s.userFiles[x].file == file
  }

  /** The record names the owner and the physical file of its UserFile, if that still exists. */
  predicate Agrees(s: State, r: Recycled) {
    r.userFile in s.userFiles ==> s.userFiles[r.userFile].user == r.user && s.userFiles[r.userFile].file == r.file
  }

  /** What the use cases check before each kind of write. */
  ghost predicate Guarded(s: State, w: Write) {
    match w
    case AddInfo(info) => info.fileHash == ""
    case AddLink(_, file, _, _) =>
      file in s.fileInfos && (Encrypted(s, file) ==> forall x :: !Refers(s, x, file))
    case CutInfo(file) => ActiveRefs(s, file) == 0
    case AddRecord(r) => r.userFile in s.userFiles && Agrees(s, r)
    case Edit(x, _, _, public) =>
      x in s.userFiles && (public ==> s.userFiles[x].isPublic || !Encrypted(s, s.userFiles[x].file))
    case _ => true
  }

  ghost function ApplyAll(s: State, ws: seq<Write>): State
    decreases |ws|
  {
    if ws == [] then s else ApplyAll(Apply(s, ws[0]), ws[1..])
  }

  ghost predicate AllGuarded(s: State, ws: seq<Write>)
    decreases |ws|
  {
    ws == [] || (Guarded(s, ws[0]) && AllGuarded(Apply(s, ws[0]), ws[1..]))
  }

  /** `ws` is a guarded way to get from `s` to `t`, bringing a file back to life only if `restores`. */
  ghost predicate Explains(s: State, ws: seq<Write>, t: State, restores: bool) {
    && AllGuarded(s, ws) && ApplyAll(s, ws) == t
    && (!restores ==> forall i | 0 <= i < |ws| :: !ws[i].MarkLive?)
  }

  // ----- the writes of each use case -----

  lemma Prepend(s: State, w: Write, ws: seq<Write>, t: State, restores: bool)
    requires Guarded(s, w) && (w.MarkLive? ==> restores) && Explains(Apply(s, w), ws, t, restores)
    ensures Explains(s, [w] + ws, t, restores)
  {
    assert ([w] + ws)[1..] == ws;
  }

  lemma UploadWrites(s: State, user: string, q: UploadReq, f: UploadFaults) returns (ws: seq<Write>)
    requires Known(s)
    ensures Explains(s, ws, Upload(s, user, q, f).0, false)
  {
    ws := [];
    if !f.info {
      var add := AddInfo(NewInfo(q));
      var s1, t := Apply(s, add), Upload(s, user, q, f).0;
      if !f.link {
        var link := AddLink(user, s.next, q.name, q.dir);
        assert forall x :: !Refers(s1, x, s.next);
        Prepend(s1, link, [], t, false);
        ws := [link];
      }
      Prepend(s, add, ws, t, false);
      ws := [add] + ws;
    }
  }

  lemma PrecheckWrites(s: State, user: string, q: PrecheckReq, f: PrecheckFaults) returns (ws: seq<Write>)
    ensures Explains(s, ws, Precheck(s, user, q, f).0, false)
  {
    ws := [];
    var t := Precheck(s, user, q, f).0;
    if user in s.users && !Precheck(s, user, q, f).1.InsufficientSpace? && Candidate(s, q).Some? && !f.link {
      var u := s.users[user];
      var link := AddLink(user, Candidate(s, q).value, q.name, q.dir);
      var s1 := Apply(s, link);
      if u.space > 0 && !(f.debit && f.rollback) {
        var second := if f.debit then MarkTrashed(s.next) else SetFree(user, u.free - q.size);
        Prepend(s1, second, [], t, false);
        ws := [second];
      }
      Prepend(s, link, ws, t, false);
      ws := [link] + ws;
    }
  }

  lemma TrashWrites(s: State, lk: Lookup, user: string, x: Id, now: int, f: TrashFaults) returns (ws: seq<Write>)
    ensures Explains(s, ws, MoveToRecycled(s, lk, user, x, now, f).0, false)
  {
    ws := [];
    if Finds(s, lk, user, x) && !f.soft {
      var t := MoveToRecycled(s, lk, user, x, now, f).0;
      if !f.record {
        var record := AddRecord(Recycled(user, x, s.userFiles[x].file, now));
        Prepend(SoftDelete(s, x), record, [], t, false);
        ws := [record];
      }
      Prepend(s, MarkTrashed(x), ws, t, false);
      ws := [MarkTrashed(x)] + ws;
    }
  }

  lemma RestoreWrites(s: State, user: string, rid: Id, root: Option<nat>, f: RestoreFaults) returns (ws: seq<Write>)
    ensures Explains(s, ws, Restore(s, user, rid, root, f).0, true)
  {
    ws := [];
    if Restore(s, user, rid, root, RestoreFaults(false, false)).1.Ok? && !f.clear {
      var x := s.recycled[rid].userFile;
      var live := MarkLive(x, Target(s, s.userFiles[x].dir, root).value);
      var t := Restore(s, user, rid, root, f).0;
      if !f.record {
        Prepend(Apply(s, live), CutRecord(rid), [], t, true);
        ws := [CutRecord(rid)];
      }
      Prepend(s, live, ws, t, true);
      ws := [live] + ws;
    }
  }

  lemma DropRecordWrites(s: State, rid: Id, f: PurgeFaults) returns (ws: seq<Write>)
    ensures Explains(s, ws, DropRecord(s, rid, f).0, false)
  {
    ws := if rid in s.recycled && !f.record then [CutRecord(rid)] else [];
  }

  lemma PurgeWrites(s: State, rid: Id, f: PurgeFaults) returns (ws: seq<Write>)
    ensures Explains(s, ws, Purge(s, rid, f).0, false)
  {
    ws := [];
    if rid in s.recycled {
      var r := s.recycled[rid];
      if r.userFile !in s.userFiles {
        ws := DropRecordWrites(s, rid, f);
      } else if !f.count {
        var file := s.userFiles[r.userFile].file;
        var unshared := Unshared(s, file);
        var s1 := if unshared then ReturnSpace(s, r.user, s.fileInfos[file].size, f.credit) else s;
        var s2 := if unshared && !f.info then s1.(fileInfos := s1.fileInfos - {file}) else s1;
        var s3 := s2.(userFiles := s2.userFiles - {r.userFile});
        var done := f.link || (unshared && f.info);
        if !done {
          ws := DropRecordWrites(s3, rid, f);
          Prepend(s2, CutLink(r.userFile), ws, DropRecord(s3, rid, f).0, false);
          ws := [CutLink(r.userFile)] + ws;
        }
        var t := Purge(s, rid, f).0;
        assert Explains(s2, ws, t, false);
        if unshared && !f.info {
          Prepend(s1, CutInfo(file), ws, t, false);
          ws := [CutInfo(file)] + ws;
        }
        if s1 != s {
          var pay := SetFree(r.user, s.users[r.user].free + s.fileInfos[file].size);
          Prepend(s, pay, ws, t, false);
          ws := [pay] + ws;
        }
      }
    }
  }

  lemma EditWrites(s: State, lk: Lookup, op: Op) returns (ws: seq<Write>)
    requires op.DoMove? || op.DoRename? || op.DoSetPublic?
    ensures Explains(s, ws, Step(s, lk, op), false)
  {
    ws := [];
    if Step(s, lk, op) != s {
      var uf := Step(s, lk, op).userFiles[op.x];
      ws := [Edit(op.x, uf.name, uf.dir, uf.isPublic)];
    }
  }

  /** Every step of the machine is a sequence of guarded writes. */
  lemma StepWrites(s: State, lk: Lookup, op: Op) returns (ws: seq<Write>)
    requires Known(s)
    ensures Explains(s, ws, Step(s, lk, op), op.DoRestore?)
  {
    match op
    case DoUpload(u, q, f) => ws := UploadWrites(s, u, q, f);
    case DoPrecheck(u, q, f) => ws := PrecheckWrites(s, u, q, f);
    case DoTrash(u, x, now, f) => ws := TrashWrites(s, lk, u, x, now, f);
    case DoRestore(u, rid, root, f) => ws := RestoreWrites(s, u, rid, root, f);
    case DoPurge(rid, f) => ws := PurgeWrites(s, rid, f);
    case DoTree(edit) => ws := [SetTree(Directory.Apply(s.dirs, edit))];
    case _ => ws := EditWrites(s, lk, op);
  }

  // ----- what holds after every write -----

  /** No two UserFiles, live or trashed, refer to one encrypted file. */
  ghost predicate EncryptedUnshared(s: State) {
    forall x, y | x in s.userFiles && y in s.userFiles && x != y && s.userFiles[x].file == s.userFiles[y].file ::
      !Encrypted(s, s.userFiles[x].file)
  }

  ghost predicate PublicIsPlain(s: State) {
    forall x <- s.userFiles :: s.userFiles[x].isPublic ==> !Encrypted(s, s.userFiles[x].file)
  }

  /** No upload ever records a whole-file hash. */
  ghost predicate WholeHashUnset(s: State) {
    forall f <- s.fileInfos :: s.fileInfos[f].fileHash == ""
  }

  ghost predicate RecordsAgree(s: State) {
    forall r <- s.recycled :: Agrees(s, s.recycled[r])
  }

  ghost predicate Safe(s: State) {
    Known(s) && EncryptedUnshared(s) && PublicIsPlain(s) && WholeHashUnset(s) && RecordsAgree(s)
  }

  /** Each live file's physical file is there. */
  ghost predicate LiveBacked(s: State) {
    forall x <- s.userFiles :: !s.userFiles[x].trashed ==> s.userFiles[x].file in s.fileInfos
  }

  lemma WriteKeepsKnown(s: State, w: Write)
    requires Known(s) && Guarded(s, w)
    ensures Known(Apply(s, w)) && s.next <= Apply(s, w).next
  {
  }

  lemma WriteKeepsUnshared(s: State, w: Write)
    requires Known(s) && EncryptedUnshared(s) && Guarded(s, w)
    ensures EncryptedUnshared(Apply(s, w))
  {
    if w.AddLink? {
      assert forall x <- s.userFiles :: Refers(s, x, w.file) <==> s.userFiles[x].file == w.file;
    }
  }

  lemma WriteKeepsPublicPlain(s: State, w: Write)
    requires Known(s) && PublicIsPlain(s) && Guarded(s, w)
    ensures PublicIsPlain(Apply(s, w))
  {
  }

  lemma WriteKeepsRecordsAgree(s: State, w: Write)
    requires Known(s) && RecordsAgree(s) && Guarded(s, w)
    ensures RecordsAgree(Apply(s, w))
  {
  }

  lemma WriteKeepsSafe(s: State, w: Write)
    requires Safe(s) && Guarded(s, w)
    ensures Safe(Apply(s, w)) && s.next <= Apply(s, w).next
  {
    WriteKeepsKnown(s, w);
    WriteKeepsUnshared(s, w);
    WriteKeepsPublicPlain(s, w);
    WriteKeepsRecordsAgree(s, w);
  }

  lemma {:induction false} WritesKeepSafe(s: State, ws: seq<Write>)
    requires Safe(s) && AllGuarded(s, ws)
    ensures Safe(ApplyAll(s, ws))
    ensures s.next <= ApplyAll(s, ws).next
    decreases |ws|
  {
    if ws != [] {
      WriteKeepsSafe(s, ws[0]);
      WritesKeepSafe(Apply(s, ws[0]), ws[1..]);
    }
  }

  lemma {:induction false} StepKeepsSafe(s: State, lk: Lookup, op: Op)
    requires Safe(s)
    ensures Safe(Step(s, lk, op)) && s.next <= Step(s, lk, op).next
  {
    var ws := StepWrites(s, lk, op);
    WritesKeepSafe(s, ws);
  }

  /** In every run, failing or not: an encrypted file has at most one UserFile, a public file is never
      encrypted, no stored file has a whole-file hash, and a trash record agrees with its UserFile. */
  lemma {:induction false} RunKeepsSafe(s: State, lk: Lookup, ops: seq<Op>)
    requires Safe(s)
    ensures Safe(Run(s, lk, ops)) && s.next <= Run(s, lk, ops).next
    decreases |ops|
  {
    if ops != [] {
      StepKeepsSafe(s, lk, ops[0]);
      RunKeepsSafe(Step(s, lk, ops[0]), lk, ops[1..]);
    }
  }

  lemma InitialIsSafe(s: State)
    requires Initial(s)
    ensures Safe(s) && LiveBacked(s)
  {
  }

  /** The single-hash form of instant upload never matches a real hash. */
  lemma OneHashNeverMatches(s: State, lk: Lookup, ops: seq<Op>, q: PrecheckReq)
    requires Initial(s) && |q.md5s| == 1 && q.md5s[0] != ""
    ensures Candidate(Run(s, lk, ops), q).None?
  {
    InitialIsSafe(s);
    RunKeepsSafe(s, lk, ops);
  }

  // ----- live files stay backed -----

  lemma NoLiveRefs(s: State, file: Id)
    requires ActiveRefs(s, file) == 0
    ensures forall x <- s.userFiles :: !s.userFiles[x].trashed ==> s.userFiles[x].file != file
  {
    forall x | IsLive(s, x) ensures s.userFiles[x].file != file {
      assert x !in LiveRefs(s, file);
    }
  }

  lemma {:induction false} WritesKeepLiveBacked(s: State, ws: seq<Write>)
    requires LiveBacked(s) && AllGuarded(s, ws)
    requires forall i | 0 <= i < |ws| :: !ws[i].MarkLive?
    ensures LiveBacked(ApplyAll(s, ws))
    decreases |ws|
  {
    if ws != [] {
      if ws[0].CutInfo? {
        NoLiveRefs(s, ws[0].file);
      }
      assert LiveBacked(Apply(s, ws[0]));
      WritesKeepLiveBacked(Apply(s, ws[0]), ws[1..]);
    }
  }

  /** Whatever fails, no step but a restore can leave a live file without its physical file. */
  lemma StepKeepsLiveBacked(s: State, lk: Lookup, op: Op)
    requires Known(s) && LiveBacked(s) && !op.DoRestore?
    ensures LiveBacked(Step(s, lk, op))
  {
    var ws := StepWrites(s, lk, op);
    WritesKeepLiveBacked(s, ws);
  }

  /** A purge drops a physical file only when no live file refers to it. */
  lemma PurgeSparesLiveFiles(s: State, rid: Id, f: PurgeFaults, file: Id)
    requires file in s.fileInfos && file !in Purge(s, rid, f).0.fileInfos
    ensures forall x <- s.userFiles :: !s.userFiles[x].trashed ==> s.userFiles[x].file != file
    ensures rid in s.recycled && Refers(s, s.recycled[rid].userFile, file)
  {
    NoLiveRefs(s, file);
  }

  /** The restore gets as far as writing its file's row. */
  predicate Revives(s: State, user: string, rid: Id, root: Option<nat>, f: RestoreFaults) {
    && rid in s.recycled && s.recycled[rid].user == user
    && s.recycled[rid].userFile in s.userFiles
    && Target(s, s.userFiles[s.recycled[rid].userFile].dir, root).Some?
    && !f.clear
  }

  /** A restore keeps live files backed exactly when it revives nothing or the physical file is still there. */
  lemma RestoreKeepsLiveBackedExactly(s: State, user: string, rid: Id, root: Option<nat>, f: RestoreFaults)
    requires LiveBacked(s)
    ensures LiveBacked(Restore(s, user, rid, root, f).0)
            <==> (Revives(s, user, rid, root, f) ==> s.userFiles[s.recycled[rid].userFile].file in s.fileInfos)
  {
    if Revives(s, user, rid, root, f) {
      var x := s.recycled[rid].userFile;
      var t := Restore(s, user, rid, root, f).0;
      assert IsLive(t, x) && t.userFiles[x].file == s.userFiles[x].file && t.fileInfos == s.fileInfos;
      assert forall y <- t.userFiles :: y != x ==> t.userFiles[y] == s.userFiles[y];
    }
  }

  /** The step revives a file whose physical file is gone. */
  predicate Dangles(s: State, op: Op) {
    && op.DoRestore? && Revives(s, op.user, op.rid, op.root, op.rf)
    && s.userFiles[s.recycled[op.rid].userFile].file !in s.fileInfos
  }

  lemma StepKeepsLiveBackedExactly(s: State, lk: Lookup, op: Op)
    requires Known(s) && LiveBacked(s)
    ensures LiveBacked(Step(s, lk, op)) <==> !Dangles(s, op)
  {
    if op.DoRestore? {
      RestoreKeepsLiveBackedExactly(s, op.user, op.rid, op.root, op.rf);
    } else {
      StepKeepsLiveBacked(s, lk, op);
    }
  }

  lemma {:induction false} BackedUpTo(s: State, lk: Lookup, ops: seq<Op>, k: nat)
    requires Safe(s) && LiveBacked(s) && k <= |ops|
    requires forall i | 0 <= i < k :: !Dangles(At(s, lk, ops, i), ops[i])
    ensures LiveBacked(At(s, lk, ops, k))
  {
    if k > 0 {
      BackedUpTo(s, lk, ops, k - 1);
      AtSnoc(s, lk, ops, k - 1);
      RunKeepsSafe(s, lk, ops[..k - 1]);
      StepKeepsLiveBackedExactly(At(s, lk, ops, k - 1), lk, ops[k - 1]);
    }
  }

  /** In any run, whatever fails, live files stay backed throughout exactly when every restore that revives
      a file finds its physical file. */
  lemma {:induction false} RunKeepsLiveBackedExactly(s: State, lk: Lookup, ops: seq<Op>)
    requires Safe(s) && LiveBacked(s)
    ensures (forall k | 0 <= k <= |ops| :: LiveBacked(At(s, lk, ops, k)))
            <==> forall i | 0 <= i < |ops| :: !Dangles(At(s, lk, ops, i), ops[i])
  {
    hide LiveBacked, Dangles, At, Step, Run;
    if forall i | 0 <= i < |ops| :: !Dangles(At(s, lk, ops, i), ops[i]) {
      forall k | 0 <= k <= |ops| ensures LiveBacked(At(s, lk, ops, k)) {
        BackedUpTo(s, lk, ops, k);
      }
    }
    if forall k | 0 <= k <= |ops| :: LiveBacked(At(s, lk, ops, k)) {
      forall i | 0 <= i < |ops| ensures !Dangles(At(s, lk, ops, i), ops[i]) {
        assert LiveBacked(At(s, lk, ops, i)) && LiveBacked(At(s, lk, ops, i + 1));
        StateIsKnown(s, lk, ops, i);
        StepKeepsLiveBackedExactly(At(s, lk, ops, i), lk, ops[i]);
        AtSnoc(s, lk, ops, i);
      }
    }
  }

  lemma StateIsKnown(s: State, lk: Lookup, ops: seq<Op>, k: nat)
    requires Safe(s) && k <= |ops|
    ensures Known(At(s, lk, ops, k))
  {
    RunKeepsSafe(s, lk, ops[..k]);
  }

  /** A purge hard-deletes a live UserFile exactly when its record is for one and neither the count of
      references nor the delete fails. */
  lemma {:induction false} PurgeRemovesLiveExactly(s: State, rid: Id, f: PurgeFaults)
    ensures (exists x :: IsLive(s, x) && !IsLive(Purge(s, rid, f).0, x))
            <==> rid in s.recycled && IsLive(s, s.recycled[rid].userFile) && !f.count && !f.link
  {
    var t := Purge(s, rid, f).0;
    if rid in s.recycled && IsLive(s, s.recycled[rid].userFile) {
      var x := s.recycled[rid].userFile;
      assert x in LiveRefs(s, s.userFiles[x].file);
      assert f.count || f.link || !IsLive(t, x);
    }
    assert forall x :: x in s.userFiles && x !in t.userFiles ==> rid in s.recycled && x == s.recycled[rid].userFile;
  }
}
