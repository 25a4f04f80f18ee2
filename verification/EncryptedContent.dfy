/** Encrypted files keep their content: the FileInfo row of an encrypted file stays for as long as its one
    UserFile does, until a purge fails half-way. */
module EncryptedContent {
  import opened Basics
  import opened Storage
  import opened StorageWrites
  import opened TrashLife
  import opened Owners

  /** If the UserFile exists, it still has its encrypted file. */
  ghost predicate StillBacked(s: State, x: Id, file: Id) {
    x !in s.userFiles || (Refers(s, x, file) && Encrypted(s, file))
  }

  /** A purge of the trashed `x` deletes the FileInfo and then fails to delete the UserFile. */
  predicate Strands(s: State, op: Op, x: Id) {
    && op.DoPurge? && op.rid in s.recycled && s.recycled[op.rid].userFile == x
    && x in s.userFiles && s.userFiles[x].trashed
    && !op.pf.count && !op.pf.info && op.pf.link
  }

  lemma {:induction false} PurgeKeepsBackedExactly(s: State, rid: Id, f: PurgeFaults, x: Id, file: Id)
    requires EncryptedUnshared(s) && StillBacked(s, x, file)
    ensures StillBacked(Purge(s, rid, f).0, x, file) <==> !Strands(s, DoPurge(rid, f), x)
  {
    if rid in s.recycled && s.recycled[rid].userFile in s.userFiles {
      PurgeEffect(s, rid, f);
      hide Purge;
      var y := s.recycled[rid].userFile;
      if x in s.userFiles && s.userFiles[y].file == file {
        OnlyOwner(s, x, file, y);
      }
    }
  }

  /** The one UserFile of an encrypted file decides whether it is referred to at all. */
  lemma OnlyOwner(s: State, x: Id, file: Id, y: Id)
    requires EncryptedUnshared(s) && Refers(s, x, file) && Encrypted(s, file) && Refers(s, y, file)
    ensures y == x
    ensures LiveRefs(s, file) == if IsLive(s, x) then {x} else {}
  {
  }

  lemma LinksKeepBacked(s: State, t: State, x: Id, file: Id)
    requires StillBacked(s, x, file) && KeepsLinks(s, t) && t.fileInfos == s.fileInfos
    requires x in t.userFiles ==> x in s.userFiles
    ensures StillBacked(t, x, file)
  {
  }

  lemma UploadKeepsBacked(s: State, user: string, q: UploadReq, f: UploadFaults, x: Id, file: Id)
    requires Known(s) && x < s.next && StillBacked(s, x, file)
    ensures StillBacked(Upload(s, user, q, f).0, x, file)
  {
  }

  lemma {:induction false} NothingReappears(s: State, lk: Lookup, op: Op, x: Id)
    requires Known(s) && x < s.next && x !in s.userFiles
    ensures x !in Step(s, lk, op).userFiles
  {
    var ws := StepWrites(s, lk, op);
    WritesAddNothingOld(s, ws, x);
  }

  lemma {:induction false} WritesAddNothingOld(s: State, ws: seq<Write>, x: Id)
    requires x < s.next && x !in s.userFiles
    ensures x !in ApplyAll(s, ws).userFiles
    decreases |ws|
  {
    if ws != [] {
      WritesAddNothingOld(Apply(s, ws[0]), ws[1..], x);
    }
  }

  /** From any state, with either lookup and whatever fails: an encrypted file stays with its UserFile
      exactly when the step does not purge that UserFile from the trash and fail between deleting the
      FileInfo and deleting the UserFile. */
  lemma {:induction false} StepKeepsBackedExactly(s: State, lk: Lookup, op: Op, x: Id, file: Id)
    requires Safe(s) && x < s.next && StillBacked(s, x, file)
    ensures StillBacked(Step(s, lk, op), x, file) <==> !Strands(s, op, x)
  {
    match op
    case DoUpload(u, q, f) => UploadKeepsBacked(s, u, q, f, x, file);
    case DoPurge(rid, f) => PurgeKeepsBackedExactly(s, rid, f, x, file);
    case _ =>
      StepKeepsLinks(s, lk, op);
      if x !in s.userFiles {
        NothingReappears(s, lk, op, x);
      }
      hide Step;
      LinksKeepBacked(s, Step(s, lk, op), x, file);
  }

  lemma {:induction false} BackedUpTo(s: State, lk: Lookup, ops: seq<Op>, x: Id, file: Id, k: nat)
    requires Safe(s) && x < s.next && StillBacked(s, x, file) && k <= |ops|
    requires forall i | 0 <= i < k :: !Strands(At(s, lk, ops, i), ops[i], x)
    ensures StillBacked(At(s, lk, ops, k), x, file)
  {
    if k > 0 {
      BackedUpTo(s, lk, ops, x, file, k - 1);
      AtSnoc(s, lk, ops, k - 1);
      RunKeepsSafe(s, lk, ops[..k - 1]);
      StepKeepsBackedExactly(At(s, lk, ops, k - 1), lk, ops[k - 1], x, file);
    }
  }

  /** Over any run, whatever fails: once a UserFile has an encrypted file, the file is stored in every state
      in which the UserFile exists, so that restoring it never leaves it without content, exactly when
      no purge of the UserFile fails between the two deletes. */
  lemma {:induction false} RunKeepsBackedExactly(s: State, lk: Lookup, ops: seq<Op>, x: Id, file: Id)
    requires Safe(s) && x < s.next && StillBacked(s, x, file)
    ensures (forall k | 0 <= k <= |ops| :: StillBacked(At(s, lk, ops, k), x, file))
            <==> forall i | 0 <= i < |ops| :: !Strands(At(s, lk, ops, i), ops[i], x)
  {
    hide StillBacked, Strands, At, Step, Run, Safe;
    if forall i | 0 <= i < |ops| :: !Strands(At(s, lk, ops, i), ops[i], x) {
      forall k | 0 <= k <= |ops| ensures StillBacked(At(s, lk, ops, k), x, file) {
        BackedUpTo(s, lk, ops, x, file, k);
      }
    }
    if forall k | 0 <= k <= |ops| :: StillBacked(At(s, lk, ops, k), x, file) {
      forall i | 0 <= i < |ops| ensures !Strands(At(s, lk, ops, i), ops[i], x) {
        assert StillBacked(At(s, lk, ops, i), x, file) && StillBacked(At(s, lk, ops, i + 1), x, file);
        StateIsSafe(s, lk, ops, i);
        StepKeepsBackedExactly(At(s, lk, ops, i), lk, ops[i], x, file);
        AtSnoc(s, lk, ops, i);
      }
    }
  }

  lemma StateIsSafe(s: State, lk: Lookup, ops: seq<Op>, k: nat)
    requires Safe(s) && k <= |ops|
    ensures Safe(At(s, lk, ops, k)) && s.next <= At(s, lk, ops, k).next
  {
    RunKeepsSafe(s, lk, ops[..k]);
  }

  /** In every failure-free run, with either lookup: an encrypted file is stored for as long as its UserFile
      exists. */
  lemma {:induction false} EncryptedStaysBacked(s: State, lk: Lookup, ops: seq<Op>, x: Id, file: Id)
    requires Safe(s) && x < s.next && StillBacked(s, x, file) && AllFailureFree(ops)
    ensures StillBacked(Run(s, lk, ops), x, file)
  {
    assert forall i | 0 <= i < |ops| :: ops[i].FailureFree() && !Strands(At(s, lk, ops, i), ops[i], x);
    BackedUpTo(s, lk, ops, x, file, |ops|);
    assert ops[..|ops|] == ops;
  }
}
