/** The quota ledger: what a limited user's free space is, told from the history of a run. */
module Ledger {
  import opened Basics
  import opened Storage
  import opened StorageWrites

  /** The total size of a set of stored files. */
  ghost function SizeSum(infos: map<Id, FileInfo>, fs: set<Id>): nat
    requires fs <= infos.Keys
  {
    if fs == {} then 0
    else
      var f :| f in fs;
      infos[f].size + SizeSum(infos, fs - {f})
  }

  lemma {:induction false} SizeSumTake(infos: map<Id, FileInfo>, fs: set<Id>, f: Id)
    requires fs <= infos.Keys && f in fs
    ensures SizeSum(infos, fs) == infos[f].size + SizeSum(infos, fs - {f})
  {
    var g :| g in fs && SizeSum(infos, fs) == infos[g].size + SizeSum(infos, fs - {g});
    if g != f {
      SizeSumTake(infos, fs - {g}, f);
      SizeSumTake(infos, fs - {f}, g);
      assert fs - {g} - {f} == fs - {f} - {g};
    }
  }

  lemma SizeSumOne(infos: map<Id, FileInfo>, f: Id)
    requires f in infos
    ensures SizeSum(infos, {f}) == infos[f].size
  {
    SizeSumTake(infos, {f}, f);
  }

  predicate Limited(s: State, u: string) {
    u in s.users && s.users[u].space > 0
  }

  /** The stored files that a step removes. */
  ghost function Dropped(s: State, t: State): set<Id> {
    s.fileInfos.Keys - t.fileInfos.Keys
  }

  /** What the user owes for a step: the size of an instant upload that linked a file. */
  ghost function Debit(s: State, lk: Lookup, op: Op, u: string): nat {
    if op.DoPrecheck? && op.user == u && Step(s, lk, op).userFiles.Keys != s.userFiles.Keys then op.check.size else 0
  }

  /** What the user is owed for a step: the stored files dropped by purging a record of theirs. */
  ghost function Credit(s: State, lk: Lookup, op: Op, u: string): nat {
    if op.DoPurge? && op.rid in s.recycled && s.recycled[op.rid].user == u
    then SizeSum(s.fileInfos, Dropped(s, Step(s, lk, op))) else 0
  }

  ghost function Debits(s: State, lk: Lookup, ops: seq<Op>, u: string): nat
    decreases |ops|
  {
    if ops == [] then 0 else Debit(s, lk, ops[0], u) + Debits(Step(s, lk, ops[0]), lk, ops[1..], u)
  }

  ghost function Credits(s: State, lk: Lookup, ops: seq<Op>, u: string): nat
    decreases |ops|
  {
    if ops == [] then 0 else Credit(s, lk, ops[0], u) + Credits(Step(s, lk, ops[0]), lk, ops[1..], u)
  }

  lemma PrecheckLedger(s: State, lk: Lookup, op: Op, u: string)
    requires Known(s) && Limited(s, u) && op.DoPrecheck? && op.FailureFree()
    ensures Limited(Step(s, lk, op), u) && Step(s, lk, op).users[u].space == s.users[u].space
    ensures Step(s, lk, op).users[u].free == s.users[u].free - Debit(s, lk, op, u)
    ensures Debit(s, lk, op, u) > 0 ==> s.users[u].free >= Debit(s, lk, op, u)
  {
    var t := Step(s, lk, op);
    if t != s {
      assert s.next in t.userFiles && s.next !in s.userFiles;
    }
  }

  lemma {:induction false} PurgeLedger(s: State, rid: Id, u: string)
    requires Limited(s, u)
    ensures var t := Purge(s, rid, NO_FAULTS).0;
            && Limited(t, u) && t.users[u].space == s.users[u].space
            && t.users[u].free == s.users[u].free
                 + (if rid in s.recycled && s.recycled[rid].user == u then SizeSum(s.fileInfos, Dropped(s, t)) else 0)
  {
    PurgePays(s, rid);
    hide Purge, SizeSum, Dropped;
  }

  lemma DroppedOne(s: State, t: State, f: Id)
    requires f in s.fileInfos && t.fileInfos == s.fileInfos - {f}
    ensures Dropped(s, t) == {f} && SizeSum(s.fileInfos, Dropped(s, t)) == s.fileInfos[f].size
  {
    assert Dropped(s, t) == {f};
    SizeSumOne(s.fileInfos, f);
  }

  lemma DroppedNone(s: State, t: State)
    requires t.fileInfos == s.fileInfos
    ensures Dropped(s, t) == {} && SizeSum(s.fileInfos, Dropped(s, t)) == 0
  {
  }

  /** A failure-free purge pays back what it drops, and nothing when it drops nothing. */
  lemma PurgePays(s: State, rid: Id)
    ensures var t := Purge(s, rid, NO_FAULTS).0;
            var amount := SizeSum(s.fileInfos, Dropped(s, t));
            if rid !in s.recycled || amount == 0 then t.users == s.users
            else t.users == ReturnSpace(s, s.recycled[rid].user, amount, false).users
  {
    hide SizeSum, Dropped, ActiveRefs;
    var t := Purge(s, rid, NO_FAULTS).0;
    if rid in s.recycled && s.recycled[rid].userFile in s.userFiles && Unshared(s, s.userFiles[s.recycled[rid].userFile].file) {
      DroppedOne(s, t, s.userFiles[s.recycled[rid].userFile].file);
    } else {
      DroppedNone(s, t);
    }
  }

  lemma {:induction false} StepLedger(s: State, lk: Lookup, op: Op, u: string)
    requires Known(s) && Limited(s, u) && op.FailureFree()
    ensures Limited(Step(s, lk, op), u)
    ensures Step(s, lk, op).users[u].free == s.users[u].free - Debit(s, lk, op, u) + Credit(s, lk, op, u)
    ensures Step(s, lk, op).users[u].space == s.users[u].space
    ensures s.users[u].free >= 0 ==> Step(s, lk, op).users[u].free >= 0
  {
    if op.DoPrecheck? {
      PrecheckLedger(s, lk, op, u);
    } else if op.DoPurge? {
      PurgeLedger(s, op.rid, u);
    } else {
      assert Step(s, lk, op).users == s.users;
    }
  }

  /** Over a failure-free run a limited user's free space is what it was, minus the sizes of the instant
      uploads, plus the sizes of the stored files dropped by purging the user's records; never negative. */
  lemma {:induction false} RunLedger(s: State, lk: Lookup, ops: seq<Op>, u: string)
    requires Safe(s) && Limited(s, u) && AllFailureFree(ops)
    ensures var t := Run(s, lk, ops);
            && Limited(t, u) && t.users[u].space == s.users[u].space
            && t.users[u].free == s.users[u].free - Debits(s, lk, ops, u) + Credits(s, lk, ops, u)
            && (s.users[u].free >= 0 ==> t.users[u].free >= 0)
    decreases |ops|
  {
    if ops != [] {
      assert ops[0].FailureFree();
      StepLedger(s, lk, ops[0], u);
      StepKeepsSafe(s, lk, ops[0]);
      RunLedger(Step(s, lk, ops[0]), lk, ops[1..], u);
    }
  }

  // ----- staying within the quota -----

  predicate WithinQuota(s: State, u: string) {
    Limited(s, u) && s.users[u].free <= s.users[u].space
  }

  /** The step drops a stored file for a record of the user, and the file is larger than what the user has in use. */
  predicate Overpays(s: State, op: Op, u: string) {
    && op.DoPurge? && op.rid in s.recycled && s.recycled[op.rid].user == u && u in s.users
    && s.recycled[op.rid].userFile in s.userFiles
    && var file := s.userFiles[s.recycled[op.rid].userFile].file;
       Unshared(s, file) && s.fileInfos[file].size > s.users[u].space - s.users[u].free
  }

  /** A failure-free step leaves a limited user's free space within the quota exactly when it is not a purge
      that pays back more than the user has in use. */
  lemma {:induction false} StepKeepsQuotaExactly(s: State, lk: Lookup, op: Op, u: string)
    requires Known(s) && WithinQuota(s, u) && op.FailureFree()
    ensures WithinQuota(Step(s, lk, op), u) <==> !Overpays(s, op, u)
  {
    StepLedger(s, lk, op, u);
    if op.DoPurge? && op.rid in s.recycled {
      PurgeDrops(s, op.rid);
    }
  }

  lemma PurgeDrops(s: State, rid: Id)
    requires rid in s.recycled
    ensures var t, x := Purge(s, rid, NO_FAULTS).0, s.recycled[rid].userFile;
            SizeSum(s.fileInfos, Dropped(s, t))
            == if x in s.userFiles && Unshared(s, s.userFiles[x].file) then s.fileInfos[s.userFiles[x].file].size else 0
  {
    hide SizeSum, Dropped, ActiveRefs;
    var t, x := Purge(s, rid, NO_FAULTS).0, s.recycled[rid].userFile;
    if x in s.userFiles && Unshared(s, s.userFiles[x].file) {
      DroppedOne(s, t, s.userFiles[x].file);
    } else {
      DroppedNone(s, t);
    }
  }

  lemma {:induction false} WithinQuotaUpTo(s: State, lk: Lookup, ops: seq<Op>, u: string, k: nat)
    requires Safe(s) && WithinQuota(s, u) && AllFailureFree(ops) && k <= |ops|
    requires forall i | 0 <= i < k :: !Overpays(At(s, lk, ops, i), ops[i], u)
    ensures WithinQuota(At(s, lk, ops, k), u)
  {
    if k > 0 {
      WithinQuotaUpTo(s, lk, ops, u, k - 1);
      AtSnoc(s, lk, ops, k - 1);
      StateIsKnown(s, lk, ops, k - 1);
      StepKeepsQuotaExactly(At(s, lk, ops, k - 1), lk, ops[k - 1], u);
    }
  }

  /** Over a failure-free run the user's free space stays within the quota throughout exactly when no purge
      pays back more than the user has in use at that time. */
  lemma {:induction false} RunKeepsQuotaExactly(s: State, lk: Lookup, ops: seq<Op>, u: string)
    requires Safe(s) && WithinQuota(s, u) && AllFailureFree(ops)
    ensures (forall k | 0 <= k <= |ops| :: WithinQuota(At(s, lk, ops, k), u))
            <==> forall i | 0 <= i < |ops| :: !Overpays(At(s, lk, ops, i), ops[i], u)
  {
    hide WithinQuota, Overpays, At, Step, Run;
    if forall i | 0 <= i < |ops| :: !Overpays(At(s, lk, ops, i), ops[i], u) {
      forall k | 0 <= k <= |ops| ensures WithinQuota(At(s, lk, ops, k), u) {
        WithinQuotaUpTo(s, lk, ops, u, k);
      }
    }
    if forall k | 0 <= k <= |ops| :: WithinQuota(At(s, lk, ops, k), u) {
      forall i | 0 <= i < |ops| ensures !Overpays(At(s, lk, ops, i), ops[i], u) {
        assert WithinQuota(At(s, lk, ops, i), u) && WithinQuota(At(s, lk, ops, i + 1), u);
        StateIsKnown(s, lk, ops, i);
        StepKeepsQuotaExactly(At(s, lk, ops, i), lk, ops[i], u);
        AtSnoc(s, lk, ops, i);
      }
    }
  }

  // ----- nothing is dropped twice -----

  lemma {:induction false} WritesNeverReuse(s: State, ws: seq<Write>, f: Id)
    requires f < s.next && f !in s.fileInfos
    ensures f < ApplyAll(s, ws).next && f !in ApplyAll(s, ws).fileInfos
    decreases |ws|
  {
    if ws != [] {
      WritesNeverReuse(Apply(s, ws[0]), ws[1..], f);
    }
  }

  /** A stored file that is gone stays gone, in any run. */
  lemma {:induction false} GoneStaysGone(s: State, lk: Lookup, ops: seq<Op>, f: Id)
    requires Safe(s) && f < s.next && f !in s.fileInfos
    ensures f !in Run(s, lk, ops).fileInfos
    decreases |ops|
  {
    if ops != [] {
      var ws := StepWrites(s, lk, ops[0]);
      WritesNeverReuse(s, ws, f);
      StepKeepsSafe(s, lk, ops[0]);
      GoneStaysGone(Step(s, lk, ops[0]), lk, ops[1..], f);
    }
  }

  /** The stored files that the i-th step of a run drops. */
  ghost function DroppedAt(s: State, lk: Lookup, ops: seq<Op>, i: nat): set<Id>
    requires i < |ops|
  {
    Dropped(At(s, lk, ops, i), At(s, lk, ops, i + 1))
  }

  /** Two steps of a run, failing or not, never drop the same stored file. */
  lemma DroppedAtMostOnce(s: State, lk: Lookup, ops: seq<Op>, i: nat, j: nat)
    requires Safe(s) && i < j < |ops|
    ensures DroppedAt(s, lk, ops, i) !! DroppedAt(s, lk, ops, j)
  {
    var before, mid := Run(s, lk, ops[..i]), Run(s, lk, ops[..i + 1]);
    assert ops[..i + 1] == ops[..i] + [ops[i]];
    assert ops[..j] == ops[..i + 1] + ops[i + 1..j];
    RunAppend(s, lk, ops[..i], [ops[i]]);
    RunAppend(s, lk, ops[..i + 1], ops[i + 1..j]);
    RunKeepsSafe(s, lk, ops[..i]);
    RunKeepsSafe(s, lk, ops[..i + 1]);
    RunKeepsSafe(before, lk, [ops[i]]);
    forall f | f in DroppedAt(s, lk, ops, i) ensures f !in DroppedAt(s, lk, ops, j) {
      GoneStaysGone(mid, lk, ops[i + 1..j], f);
    }
  }

  /** In a failure-free run no stored file is credited twice: a step raises a balance by no more than the
      sizes of what it drops, and what a later step drops is different. */
  lemma {:induction false} CreditedAtMostOnce(s: State, lk: Lookup, ops: seq<Op>, u: string, i: nat, j: nat)
    requires Safe(s) && Limited(s, u) && AllFailureFree(ops) && i < j < |ops|
    ensures Limited(At(s, lk, ops, i), u) && Limited(At(s, lk, ops, i + 1), u)
    ensures At(s, lk, ops, i + 1).users[u].free
            <= At(s, lk, ops, i).users[u].free + SizeSum(At(s, lk, ops, i).fileInfos, DroppedAt(s, lk, ops, i))
    ensures DroppedAt(s, lk, ops, i) !! DroppedAt(s, lk, ops, j)
  {
    RunLedger(s, lk, ops[..i], u);
    StateIsKnown(s, lk, ops, i);
    AtSnoc(s, lk, ops, i);
    StepLedger(At(s, lk, ops, i), lk, ops[i], u);
    DroppedAtMostOnce(s, lk, ops, i, j);
  }
}
