/** The life of trashed files: trash records and trashed files correspond one to one, until a step that can
    be told by its guards and faults breaks the correspondence. */
module TrashLife {
  import opened Basics
  import opened Storage
  import opened StorageWrites

  ghost predicate RecordOf(s: State, r: Id, x: Id) {
    r in s.recycled && s.recycled[r].userFile == x
  }

  /** The record points at a trashed file of the same user. */
  ghost predicate Points(s: State, r: Recycled) {
    && r.userFile in s.userFiles
    && s.userFiles[r.userFile].trashed
    && s.userFiles[r.userFile].user == r.user
  }

  ghost predicate TrashMatches(s: State) {
    && (forall r <- s.recycled :: Points(s, s.recycled[r]))
    && (forall x <- s.userFiles :: s.userFiles[x].trashed ==> exists r :: RecordOf(s, r, x))
    && (forall r, r' | r in s.recycled && r' in s.recycled :: s.recycled[r].userFile == s.recycled[r'].userFile ==> r == r')
  }

  // ----- the steps that break the correspondence -----

  /** A file is trashed without a record, or recorded a second time. */
  predicate TrashMismatches(s: State, lk: Lookup, user: string, x: Id, f: TrashFaults) {
    Finds(s, lk, user, x) && !f.soft && (s.userFiles[x].trashed <==> !f.record)
  }

  /** A file is revived and keeps its record. */
  predicate RestoreMismatches(s: State, user: string, rid: Id, root: Option<nat>, f: RestoreFaults) {
    Revives(s, user, rid, root, f) && f.record
  }

  /** The purge gives up before it deletes the UserFile. */
  predicate GivesUp(s: State, x: Id, f: PurgeFaults)
    requires x in s.userFiles
  {
    f.count || (Unshared(s, s.userFiles[x].file) && f.info) || f.link
  }

  /** A file is deleted and keeps its record. */
  predicate PurgeMismatches(s: State, rid: Id, f: PurgeFaults) {
    && rid in s.recycled && s.recycled[rid].userFile in s.userFiles
    && !GivesUp(s, s.recycled[rid].userFile, f) && f.record
  }

  /** The instant upload finds a file to share and links it. */
  predicate LinksFile(s: State, user: string, q: PrecheckReq, f: PrecheckFaults) {
    && user in s.users && (s.users[user].space > 0 ==> s.users[user].free >= q.size)
    && Candidate(s, q).Some? && !f.link
  }

  /** A failed instant upload is rolled back into the trash, without a record. */
  predicate PrecheckMismatches(s: State, user: string, q: PrecheckReq, f: PrecheckFaults) {
    LinksFile(s, user, q, f) && s.users[user].space > 0 && f.debit && !f.rollback
  }

  predicate Mismatches(s: State, lk: Lookup, op: Op) {
    match op
    case DoPrecheck(u, q, f) => PrecheckMismatches(s, u, q, f)
    case DoTrash(u, x, _, f) => TrashMismatches(s, lk, u, x, f)
    case DoRestore(u, rid, root, f) => RestoreMismatches(s, u, rid, root, f)
    case DoPurge(rid, f) => PurgeMismatches(s, rid, f)
    case _ => false
  }

  // ----- steps outside the trash -----

  /** Files keep their mark, owner and content, and whatever is new is a live file. */
  ghost predicate KeepsMarks(s: State, t: State) {
    && t.recycled == s.recycled && s.next <= t.next
    && (forall x <- s.userFiles :: x in t.userFiles && SameMark(s.userFiles[x], t.userFiles[x]))
    && (forall x <- t.userFiles :: x in s.userFiles || (x >= s.next && !t.userFiles[x].trashed))
  }

  predicate SameMark(a: UserFile, b: UserFile) {
    a.trashed == b.trashed && a.user == b.user && a.file == b.file
  }

  lemma UploadKeepsMarks(s: State, user: string, q: UploadReq, f: UploadFaults)
    requires Known(s)
    ensures KeepsMarks(s, Upload(s, user, q, f).0)
  {
  }

  lemma PrecheckKeepsMarks(s: State, user: string, q: PrecheckReq, f: PrecheckFaults)
    requires Known(s) && !PrecheckMismatches(s, user, q, f)
    ensures KeepsMarks(s, Precheck(s, user, q, f).0)
  {
  }

  /** Some rows were edited, keeping their mark, and nothing else. */
  lemma EditedKeepsMarks(s: State, t: State)
    requires t == s.(userFiles := t.userFiles, dirs := t.dirs) && t.userFiles.Keys == s.userFiles.Keys
    requires forall x <- s.userFiles :: SameMark(s.userFiles[x], t.userFiles[x])
    ensures KeepsMarks(s, t)
  {
  }

  lemma EditKeepsMarks(s: State, lk: Lookup, op: Op)
    requires op.DoMove? || op.DoRename? || op.DoSetPublic? || op.DoTree?
    ensures KeepsMarks(s, Step(s, lk, op)) && Step(s, lk, op).fileInfos == s.fileInfos
  {
    hide KeepsMarks;
    EditedKeepsMarks(s, Step(s, lk, op));
  }

  lemma {:induction false} EditsKeepMarks(s: State, lk: Lookup, op: Op)
    requires Known(s) && (op.DoUpload? || op.DoMove? || op.DoRename? || op.DoSetPublic? || op.DoTree?)
    ensures KeepsMarks(s, Step(s, lk, op))
  {
    match op
    case DoUpload(u, q, f) => UploadKeepsMarks(s, u, q, f);
    case _ => EditKeepsMarks(s, lk, op);
  }

  lemma MarksKeepMatches(s: State, t: State)
    requires TrashMatches(s) && KeepsMarks(s, t)
    ensures TrashMatches(t)
  {
    forall x | x in t.userFiles && t.userFiles[x].trashed ensures exists r :: RecordOf(t, r, x) {
      var r :| RecordOf(s, r, x);
      assert RecordOf(t, r, x);
    }
  }

  lemma {:induction false} PrecheckKeepsMatchesExactly(s: State, user: string, q: PrecheckReq, f: PrecheckFaults)
    requires Known(s) && TrashMatches(s)
    ensures TrashMatches(Precheck(s, user, q, f).0) <==> !PrecheckMismatches(s, user, q, f)
  {
    var t := Precheck(s, user, q, f).0;
    if PrecheckMismatches(s, user, q, f) {
      assert t.userFiles[s.next].trashed && forall r :: !RecordOf(t, r, s.next);
    } else {
      PrecheckKeepsMarks(s, user, q, f);
      hide Precheck, PrecheckMismatches;
      MarksKeepMatches(s, t);
    }
  }

  // ----- trashing -----

  lemma {:induction false} TrashKeepsMatchesExactly(s: State, lk: Lookup, user: string, x: Id, now: int, f: TrashFaults)
    requires Known(s) && TrashMatches(s)
    ensures TrashMatches(MoveToRecycled(s, lk, user, x, now, f).0) <==> !TrashMismatches(s, lk, user, x, f)
  {
    var t := MoveToRecycled(s, lk, user, x, now, f).0;
    if Finds(s, lk, user, x) && !f.soft {
      if s.userFiles[x].trashed {
        var r :| RecordOf(s, r, x);
        if f.record {
          assert t.userFiles == s.userFiles;
        } else {
          assert r in t.recycled && s.next in t.recycled && r != s.next;
          assert t.recycled[r].userFile == t.recycled[s.next].userFile;
        }
      } else if f.record {
        assert forall r <- s.recycled :: Points(s, s.recycled[r]);
        assert t.userFiles[x].trashed && forall r :: !RecordOf(t, r, x);
      } else {
        hide TrashMatches, Known;
        RecordedMatches(s, x, s.next, t);
      }
    }
  }

  /** A live file is marked and gets a fresh record. */
  lemma RecordedMatches(s: State, x: Id, rid: Id, t: State)
    requires Known(s) && TrashMatches(s) && rid == s.next && x in s.userFiles && !s.userFiles[x].trashed
    requires t.userFiles == s.userFiles[x := s.userFiles[x].(trashed := true)]
    requires rid in t.recycled && t.recycled == s.recycled[rid := t.recycled[rid]]
    requires t.recycled[rid].user == s.userFiles[x].user && t.recycled[rid].userFile == x
    ensures TrashMatches(t)
  {
    assert RecordOf(t, rid, x);
    forall r | r in t.recycled ensures Points(t, t.recycled[r]) {
      assert r == rid || Points(s, s.recycled[r]);
    }
    forall y | y in t.userFiles && t.userFiles[y].trashed ensures exists r :: RecordOf(t, r, y) {
      if y != x {
        var r :| RecordOf(s, r, y);
        assert RecordOf(t, r, y);
      }
    }
  }

  // ----- restoring -----

  lemma {:induction false} RestoreKeepsMatchesExactly(s: State, user: string, rid: Id, root: Option<nat>, f: RestoreFaults)
    requires TrashMatches(s)
    ensures TrashMatches(Restore(s, user, rid, root, f).0) <==> !RestoreMismatches(s, user, rid, root, f)
  {
    if Revives(s, user, rid, root, f) {
      var t := Restore(s, user, rid, root, f).0;
      var x := s.recycled[rid].userFile;
      if f.record {
        assert !Points(t, t.recycled[rid]);
      } else {
        assert t.recycled == s.recycled - {rid} && t.userFiles.Keys == s.userFiles.Keys && !t.userFiles[x].trashed;
        assert forall y <- s.userFiles :: y != x ==> t.userFiles[y] == s.userFiles[y];
        hide Restore, Target;
        UnrecordedMatches(s, rid, t);
      }
    }
  }

  /** A record goes, and its file with it or back to life. */
  lemma UnrecordedMatches(s: State, rid: Id, t: State)
    requires TrashMatches(s) && rid in s.recycled && t.recycled == s.recycled - {rid}
    requires s.recycled[rid].userFile in t.userFiles ==> !t.userFiles[s.recycled[rid].userFile].trashed
    requires forall y <- s.userFiles :: y != s.recycled[rid].userFile ==> y in t.userFiles && t.userFiles[y] == s.userFiles[y]
    requires t.userFiles.Keys <= s.userFiles.Keys
    ensures TrashMatches(t)
  {
    forall r | r in t.recycled ensures Points(t, t.recycled[r]) {
      assert Points(s, s.recycled[r]);
    }
    forall y | y in t.userFiles && t.userFiles[y].trashed ensures exists r :: RecordOf(t, r, y) {
      var r :| RecordOf(s, r, y);
      assert RecordOf(t, r, y);
    }
  }

  // ----- purging -----

  /** What a purge does to each table, wherever it fails. */
  lemma PurgeEffect(s: State, rid: Id, f: PurgeFaults)
    requires rid in s.recycled && s.recycled[rid].userFile in s.userFiles
    ensures var t := Purge(s, rid, f).0;
            var x := s.recycled[rid].userFile;
            var file := s.userFiles[x].file;
            && t.userFiles == (if GivesUp(s, x, f) then s.userFiles else s.userFiles - {x})
            && t.recycled == (if GivesUp(s, x, f) || f.record then s.recycled else s.recycled - {rid})
            && t.fileInfos == (if !f.count && Unshared(s, file) && !f.info then s.fileInfos - {file} else s.fileInfos)
            && t.next == s.next && t.dirs == s.dirs
    ensures Purge(s, rid, f).1.Ok? <==> !GivesUp(s, s.recycled[rid].userFile, f) && !f.record
  {
  }

  /** The same when nothing fails. */
  lemma PurgeTables(s: State, rid: Id)
    requires rid in s.recycled && s.recycled[rid].userFile in s.userFiles
    ensures var t := Purge(s, rid, NO_FAULTS).0;
            var x := s.recycled[rid].userFile;
            var file := s.userFiles[x].file;
            && t.recycled == s.recycled - {rid}
            && t.userFiles == s.userFiles - {x}
            && t.fileInfos == (if ActiveRefs(s, file) == 0 then s.fileInfos - {file} else s.fileInfos)
            && t.next == s.next && t.dirs == s.dirs
    ensures Purge(s, rid, NO_FAULTS).1.Ok?
  {
    PurgeEffect(s, rid, NO_FAULTS);
    hide Purge;
  }

  lemma {:induction false} PurgeKeepsMatchesExactly(s: State, rid: Id, f: PurgeFaults)
    requires TrashMatches(s)
    ensures TrashMatches(Purge(s, rid, f).0) <==> !PurgeMismatches(s, rid, f)
  {
    if rid in s.recycled {
      var t := Purge(s, rid, f).0;
      var x := s.recycled[rid].userFile;
      assert Points(s, s.recycled[rid]);
      PurgeEffect(s, rid, f);
      hide Purge, GivesUp;
      if GivesUp(s, x, f) {
        MarksKeepMatches(s, t);
      } else if f.record {
        assert !Points(t, t.recycled[rid]);
      } else {
        UnrecordedMatches(s, rid, t);
      }
    }
  }

  lemma PurgeKeepsMatches(s: State, rid: Id)
    requires TrashMatches(s)
    ensures TrashMatches(Purge(s, rid, NO_FAULTS).0)
  {
    PurgeKeepsMatchesExactly(s, rid, NO_FAULTS);
  }

  // ----- any step, any run -----

  /** Whatever fails: a step keeps records and trashed files in one-to-one correspondence exactly when it is
      not one of these: trashing a file whose record cannot be created, or trashing it again; reviving or
      deleting a file whose record cannot be deleted; rolling back an instant upload. */
  lemma {:induction false} StepKeepsMatchesExactly(s: State, lk: Lookup, op: Op)
    requires Known(s) && TrashMatches(s)
    ensures TrashMatches(Step(s, lk, op)) <==> !Mismatches(s, lk, op)
  {
    match op
    case DoTrash(u, x, now, f) => TrashKeepsMatchesExactly(s, lk, u, x, now, f);
    case DoRestore(u, rid, root, f) => RestoreKeepsMatchesExactly(s, u, rid, root, f);
    case DoPurge(rid, f) => PurgeKeepsMatchesExactly(s, rid, f);
    case DoPrecheck(u, q, f) => PrecheckKeepsMatchesExactly(s, u, q, f);
    case _ =>
      EditsKeepMarks(s, lk, op);
      hide Step;
      MarksKeepMatches(s, Step(s, lk, op));
  }

  lemma {:induction false} MatchesUpTo(s: State, lk: Lookup, ops: seq<Op>, k: nat)
    requires Safe(s) && TrashMatches(s) && k <= |ops|
    requires forall i | 0 <= i < k :: !Mismatches(At(s, lk, ops, i), lk, ops[i])
    ensures TrashMatches(At(s, lk, ops, k))
  {
    if k > 0 {
      MatchesUpTo(s, lk, ops, k - 1);
      AtSnoc(s, lk, ops, k - 1);
      StateIsKnown(s, lk, ops, k - 1);
      StepKeepsMatchesExactly(At(s, lk, ops, k - 1), lk, ops[k - 1]);
    }
  }

  /** Over whole runs, whatever fails: records and trashed files correspond in every state exactly when no
      step is one that breaks the correspondence. */
  lemma {:induction false} RunKeepsMatchesExactly(s: State, lk: Lookup, ops: seq<Op>)
    requires Safe(s) && TrashMatches(s)
    ensures (forall k | 0 <= k <= |ops| :: TrashMatches(At(s, lk, ops, k)))
            <==> forall i | 0 <= i < |ops| :: !Mismatches(At(s, lk, ops, i), lk, ops[i])
  {
    hide TrashMatches, Mismatches, At, Step, Run;
    if forall i | 0 <= i < |ops| :: !Mismatches(At(s, lk, ops, i), lk, ops[i]) {
      forall k | 0 <= k <= |ops| ensures TrashMatches(At(s, lk, ops, k)) {
        MatchesUpTo(s, lk, ops, k);
      }
    }
    if forall k | 0 <= k <= |ops| :: TrashMatches(At(s, lk, ops, k)) {
      forall i | 0 <= i < |ops| ensures !Mismatches(At(s, lk, ops, i), lk, ops[i]) {
        assert TrashMatches(At(s, lk, ops, i)) && TrashMatches(At(s, lk, ops, i + 1));
        StateIsKnown(s, lk, ops, i);
        StepKeepsMatchesExactly(At(s, lk, ops, i), lk, ops[i]);
        AtSnoc(s, lk, ops, i);
      }
    }
  }

  // ----- when nothing fails -----

  /** The step trashes a file that is already in the trash; the interface's lookup rules this out. */
  predicate Retrashes(s: State, lk: Lookup, op: Op) {
    op.DoTrash? && Finds(s, lk, op.user, op.x) && s.userFiles[op.x].trashed
  }

  lemma LiveOnlyNeverRetrashes(s: State, op: Op)
    ensures !Retrashes(s, LiveOnly, op)
  {
  }

  /** A failure-free step breaks the correspondence exactly when it trashes a file a second time. */
  lemma FailureFreeMismatch(s: State, lk: Lookup, op: Op)
    requires op.FailureFree()
    ensures Mismatches(s, lk, op) <==> Retrashes(s, lk, op)
  {
  }

  ghost predicate NeverRetrashes(s: State, lk: Lookup, ops: seq<Op>)
    decreases |ops|
  {
    ops == [] || (!Retrashes(s, lk, ops[0]) && NeverRetrashes(Step(s, lk, ops[0]), lk, ops[1..]))
  }

  lemma {:induction false} LiveOnlyRunNeverRetrashes(s: State, ops: seq<Op>)
    ensures NeverRetrashes(s, LiveOnly, ops)
    decreases |ops|
  {
    if ops != [] {
      LiveOnlyNeverRetrashes(s, ops[0]);
      LiveOnlyRunNeverRetrashes(Step(s, LiveOnly, ops[0]), ops[1..]);
    }
  }
}
