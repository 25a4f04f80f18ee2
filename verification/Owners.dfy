/** Who owns a stored file: no FileInfo is left without a UserFile, until a step that can be told by its
    guards and faults leaves one behind. */
module Owners {
  import opened Basics
  import opened Storage
  import opened StorageWrites
  import opened TrashLife

  ghost predicate NoLeak(s: State) {
    forall f <- s.fileInfos :: exists x :: Refers(s, x, f)
  }

  /** The step stores a file and fails to link it, or purges the record of a live file that alone refers to
      its stored file. */
  ghost predicate Orphans(s: State, op: Op) {
    match op
    case DoUpload(_, _, f) => !f.info && f.link
    case DoPurge(rid, f) => PurgeOrphans(s, rid, f)
    case _ => false
  }

  ghost predicate PurgeOrphans(s: State, rid: Id, f: PurgeFaults) {
    && rid in s.recycled && !f.count && !f.link
    && var x := s.recycled[rid].userFile;
       IsLive(s, x) && s.userFiles[x].file in s.fileInfos
       && forall y :: Refers(s, y, s.userFiles[x].file) ==> y == x
  }

  lemma {:induction false} PurgeKeepsNoLeakExactly(s: State, rid: Id, f: PurgeFaults)
    requires NoLeak(s)
    ensures NoLeak(Purge(s, rid, f).0) <==> !PurgeOrphans(s, rid, f)
  {
    if rid in s.recycled && s.recycled[rid].userFile in s.userFiles {
      var t := Purge(s, rid, f).0;
      var x := s.recycled[rid].userFile;
      var file := s.userFiles[x].file;
      PurgeEffect(s, rid, f);
      hide Purge;
      if PurgeOrphans(s, rid, f) {
        assert x in LiveRefs(s, file);
        assert file in t.fileInfos;
        assert forall y :: Refers(t, y, file) ==> Refers(s, y, file) && y != x;
      } else if GivesUp(s, x, f) {
        LinksKeepNoLeak(s, t);
      } else {
        forall g | g in t.fileInfos ensures exists y :: Refers(t, y, g) {
          assert g == file ==> ActiveRefs(s, g) != 0;
          var y := OtherOwner(s, x, g, g == file);
          assert Refers(t, y, g);
        }
      }
    } else {
      LinksKeepNoLeak(s, Purge(s, rid, f).0);
    }
  }

  /** A stored file that survives the purge of `x` has an owner other than `x`. */
  lemma OtherOwner(s: State, x: Id, f: Id, same: bool) returns (y: Id)
    requires NoLeak(s) && f in s.fileInfos && x in s.userFiles && (same <==> s.userFiles[x].file == f)
    requires same ==> ActiveRefs(s, f) != 0 && (!IsLive(s, x) || exists y :: Refers(s, y, f) && y != x)
    ensures Refers(s, y, f) && y != x
  {
    if !same {
      y :| Refers(s, y, f);
    } else if IsLive(s, x) {
      y :| Refers(s, y, f) && y != x;
    } else {
      y :| y in LiveRefs(s, f);
    }
  }

  /** Every UserFile stays and keeps what it refers to. */
  ghost predicate KeepsLinks(s: State, t: State) {
    forall x <- s.userFiles :: x in t.userFiles && t.userFiles[x].file == s.userFiles[x].file
  }

  lemma LinksKeepNoLeak(s: State, t: State)
    requires NoLeak(s) && KeepsLinks(s, t) && t.fileInfos.Keys <= s.fileInfos.Keys
    ensures NoLeak(t)
  {
    forall f | f in t.fileInfos ensures exists x :: Refers(t, x, f) {
      var x :| Refers(s, x, f);
      assert Refers(t, x, f);
    }
  }

  lemma {:induction false} UploadKeepsNoLeakExactly(s: State, user: string, q: UploadReq, f: UploadFaults)
    requires Known(s) && NoLeak(s)
    ensures NoLeak(Upload(s, user, q, f).0) <==> f.info || !f.link
  {
    var t := Upload(s, user, q, f).0;
    if !f.info && f.link {
      assert s.next in t.fileInfos && forall x :: !Refers(t, x, s.next);
    } else {
      forall g | g in t.fileInfos ensures exists x :: Refers(t, x, g) {
        if g in s.fileInfos {
          var x :| Refers(s, x, g);
          assert Refers(t, x, g);
        } else {
          assert Refers(t, s.next + 1, g);
        }
      }
    }
  }

  lemma PrecheckKeepsLinks(s: State, user: string, q: PrecheckReq, f: PrecheckFaults)
    requires Known(s)
    ensures KeepsLinks(s, Precheck(s, user, q, f).0) && Precheck(s, user, q, f).0.fileInfos == s.fileInfos
  {
  }

  lemma TrashKeepsLinks(s: State, lk: Lookup, user: string, x: Id, now: int, f: TrashFaults)
    ensures KeepsLinks(s, MoveToRecycled(s, lk, user, x, now, f).0)
    ensures MoveToRecycled(s, lk, user, x, now, f).0.fileInfos == s.fileInfos
  {
  }

  lemma RestoreKeepsLinks(s: State, user: string, rid: Id, root: Option<nat>, f: RestoreFaults)
    ensures KeepsLinks(s, Restore(s, user, rid, root, f).0)
    ensures Restore(s, user, rid, root, f).0.fileInfos == s.fileInfos
  {
    hide Target;
  }

  lemma {:induction false} StepKeepsLinks(s: State, lk: Lookup, op: Op)
    requires Known(s) && !op.DoUpload? && !op.DoPurge?
    ensures KeepsLinks(s, Step(s, lk, op)) && Step(s, lk, op).fileInfos == s.fileInfos
  {
    hide KeepsLinks;
    match op
    case DoPrecheck(u, q, f) => PrecheckKeepsLinks(s, u, q, f);
    case DoTrash(u, x, now, f) => TrashKeepsLinks(s, lk, u, x, now, f);
    case DoRestore(u, rid, root, f) => RestoreKeepsLinks(s, u, rid, root, f);
    case _ => EditKeepsLinks(s, lk, op);
  }

  lemma EditKeepsLinks(s: State, lk: Lookup, op: Op)
    requires op.DoMove? || op.DoRename? || op.DoSetPublic? || op.DoTree?
    ensures KeepsLinks(s, Step(s, lk, op)) && Step(s, lk, op).fileInfos == s.fileInfos
  {
    EditKeepsMarks(s, lk, op);
    hide Step;
  }

  /** From any state, with either lookup and whatever fails: a step leaves no stored file without an owner
      exactly when it is neither an upload that stores a file and fails to link it, nor a purge that deletes
      a live file that alone refers to its stored file. */
  lemma {:induction false} StepKeepsNoLeakExactly(s: State, lk: Lookup, op: Op)
    requires Known(s) && NoLeak(s)
    ensures NoLeak(Step(s, lk, op)) <==> !Orphans(s, op)
  {
    match op
    case DoUpload(u, q, f) => UploadKeepsNoLeakExactly(s, u, q, f);
    case DoPurge(rid, f) => PurgeKeepsNoLeakExactly(s, rid, f);
    case _ =>
      StepKeepsLinks(s, lk, op);
      hide Step;
      LinksKeepNoLeak(s, Step(s, lk, op));
  }

  lemma StepKeepsNoLeak(s: State, lk: Lookup, op: Op)
    requires Known(s) && TrashMatches(s) && NoLeak(s) && op.FailureFree()
    ensures NoLeak(Step(s, lk, op))
  {
    StepKeepsNoLeakExactly(s, lk, op);
  }

  lemma {:induction false} NoLeakUpTo(s: State, lk: Lookup, ops: seq<Op>, k: nat)
    requires Safe(s) && NoLeak(s) && k <= |ops|
    requires forall i | 0 <= i < k :: !Orphans(At(s, lk, ops, i), ops[i])
    ensures NoLeak(At(s, lk, ops, k))
  {
    if k > 0 {
      NoLeakUpTo(s, lk, ops, k - 1);
      AtSnoc(s, lk, ops, k - 1);
      StateIsKnown(s, lk, ops, k - 1);
      StepKeepsNoLeakExactly(At(s, lk, ops, k - 1), lk, ops[k - 1]);
    }
  }

  /** Over whole runs, with either lookup and whatever fails: no stored file is ever without an owner exactly
      when no step is such an upload or such a purge. */
  lemma {:induction false} RunKeepsNoLeakExactly(s: State, lk: Lookup, ops: seq<Op>)
    requires Safe(s) && NoLeak(s)
    ensures (forall k | 0 <= k <= |ops| :: NoLeak(At(s, lk, ops, k)))
            <==> forall i | 0 <= i < |ops| :: !Orphans(At(s, lk, ops, i), ops[i])
  {
    hide NoLeak, Orphans, At, Step, Run;
    if forall i | 0 <= i < |ops| :: !Orphans(At(s, lk, ops, i), ops[i]) {
      forall k | 0 <= k <= |ops| ensures NoLeak(At(s, lk, ops, k)) {
        NoLeakUpTo(s, lk, ops, k);
      }
    }
    if forall k | 0 <= k <= |ops| :: NoLeak(At(s, lk, ops, k)) {
      forall i | 0 <= i < |ops| ensures !Orphans(At(s, lk, ops, i), ops[i]) {
        assert NoLeak(At(s, lk, ops, i)) && NoLeak(At(s, lk, ops, i + 1));
        StateIsKnown(s, lk, ops, i);
        StepKeepsNoLeakExactly(At(s, lk, ops, i), lk, ops[i]);
        AtSnoc(s, lk, ops, i);
      }
    }
  }

  // ----- failure-free runs -----

  /** In every failure-free run that trashes no file twice (with the interface's lookup: every
      failure-free run), the trash matches its records and no stored file is left without an owner. */
  lemma {:induction false} FailureFreeRun(s: State, lk: Lookup, ops: seq<Op>)
    requires Safe(s) && TrashMatches(s) && NoLeak(s)
    requires AllFailureFree(ops) && NeverRetrashes(s, lk, ops)
    ensures var t := Run(s, lk, ops); Safe(t) && TrashMatches(t) && NoLeak(t) && s.next <= t.next
    decreases |ops|
  {
    if ops != [] {
      assert ops[0].FailureFree();
      StepKeepsSafe(s, lk, ops[0]);
      StepKeepsMatchesExactly(s, lk, ops[0]);
      FailureFreeMismatch(s, lk, ops[0]);
      StepKeepsNoLeak(s, lk, ops[0]);
      hide Step, TrashMatches, NoLeak, Safe, Retrashes, Mismatches;
      FailureFreeRun(Step(s, lk, ops[0]), lk, ops[1..]);
    }
  }

  /** The same from an empty drive, with the interface's lookup and no side condition at all. */
  lemma FailureFreeRunFromEmpty(s: State, ops: seq<Op>)
    requires Initial(s) && AllFailureFree(ops)
    ensures var t := Run(s, LiveOnly, ops); Safe(t) && TrashMatches(t) && NoLeak(t)
  {
    InitialIsSafe(s);
    LiveOnlyRunNeverRetrashes(s, ops);
    FailureFreeRun(s, LiveOnly, ops);
  }
}
