/** Purging many records in one call: emptying a user's trash and cleaning expired records. */
module EmptyTrash {
  import opened Basics
  import opened Storage
  import opened StorageWrites
  import opened TrashLife
  import opened Owners
  import opened Ledger

  /** The loop of Empty and CleanExpired: the final state, and how many records were deleted. */
  function PurgeAll(s: State, ids: seq<Id>, fs: seq<PurgeFaults>): (State, nat)
    requires |fs| == |ids|
    decreases |ids|
  {
    if ids == [] then (s, 0)
    else
      var (t, outcome) := Purge(s, ids[0], fs[0]);
      var (u, n) := PurgeAll(t, ids[1..], fs[1..]);
      (u, (if outcome.Ok? then 1 else 0) + n)
  }

  function Faultless(n: nat): seq<PurgeFaults> {
    seq(n, _ => NO_FAULTS)
  }

  function TrashOf(s: State, user: string): set<Id> {
    set r | r in s.recycled && s.recycled[r].user == user
  }

  /** What ListByUser(0, limit) may answer: distinct records of the user, as many as fit. */
  ghost predicate ListsTrash(s: State, user: string, ids: seq<Id>, limit: nat) {
    && NoDuplicates(ids)
    && (forall r <- ids :: r in TrashOf(s, user))
    && |ids| == if |TrashOf(s, user)| <= limit then |TrashOf(s, user)| else limit
  }

  /** What ListExpired may answer. */
  ghost predicate ListsExpired(s: State, before: int, ids: seq<Id>) {
    NoDuplicates(ids) && forall r :: r in ids <==> r in s.recycled && s.recycled[r].createdAt < before
  }

  const EMPTY_LIMIT: nat := 10000

  function PurgeOps(ids: seq<Id>, fs: seq<PurgeFaults>): seq<Op>
    requires |fs| == |ids|
  {
    seq(|ids|, i requires 0 <= i < |ids| => DoPurge(ids[i], fs[i]))
  }

  /** The loop is a run of single purges, so everything proved of runs covers it. */
  lemma {:induction false} PurgeAllIsRun(s: State, lk: Lookup, ids: seq<Id>, fs: seq<PurgeFaults>)
    requires |fs| == |ids|
    ensures PurgeAll(s, ids, fs).0 == Run(s, lk, PurgeOps(ids, fs))
    decreases |ids|
  {
    if ids != [] {
      assert PurgeOps(ids, fs)[1..] == PurgeOps(ids[1..], fs[1..]);
      PurgeAllIsRun(Purge(s, ids[0], fs[0]).0, lk, ids[1..], fs[1..]);
    }
  }

  /** Whatever fails, the count is that of the records that are gone. */
  lemma {:induction false} PurgeAllCounts(s: State, ids: seq<Id>, fs: seq<PurgeFaults>)
    requires |fs| == |ids|
    ensures var (t, deleted) := PurgeAll(s, ids, fs); |t.recycled| + deleted == |s.recycled|
    decreases |ids|
  {
    if ids != [] {
      PurgeCounts(s, ids[0], fs[0]);
      hide Purge;
      PurgeAllCounts(Purge(s, ids[0], fs[0]).0, ids[1..], fs[1..]);
    }
  }

  lemma PurgeCounts(s: State, rid: Id, f: PurgeFaults)
    ensures var (t, r) := Purge(s, rid, f); |t.recycled| + (if r == Ok then 1 else 0) == |s.recycled|
  {
    if rid in s.recycled {
      var less := s.recycled - {rid};
      assert less.Keys == s.recycled.Keys - {rid};
      assert |less.Keys| == |s.recycled.Keys| - 1;
      assert |less| == |less.Keys| && |s.recycled| == |s.recycled.Keys|;
      hide ActiveRefs;
    }
  }

  // ----- the effect, told from the tables before the call -----

  ghost predicate AllRecorded(s: State, ids: seq<Id>) {
    forall r <- ids :: r in s.recycled
  }

  /** The trashed files that the records are for. */
  ghost function LinksOf(s: State, ids: seq<Id>): set<Id>
    requires AllRecorded(s, ids)
  {
    set r | r in ids :: s.recycled[r].userFile
  }

  /** The stored files behind the records that no live file refers to, each once. */
  ghost function DeadFiles(s: State, ids: seq<Id>): set<Id>
    requires AllRecorded(s, ids)
  {
    set f | f in s.fileInfos && LiveRefs(s, f) == {} && exists x <- LinksOf(s, ids) :: Refers(s, x, f)
  }

  lemma {:induction false} SizeSumSame(a: map<Id, FileInfo>, b: map<Id, FileInfo>, fs: set<Id>)
    requires fs <= a.Keys && fs <= b.Keys && forall f <- fs :: a[f] == b[f]
    ensures SizeSum(a, fs) == SizeSum(b, fs)
  {
    if fs != {} {
      var f :| f in fs;
      SizeSumTake(a, fs, f);
      SizeSumTake(b, fs, f);
      SizeSumSame(a, b, fs - {f});
    }
  }

  /** `t` is `s` after a failure-free purge of a matched record. */
  ghost predicate Purged(s: State, rid: Id, t: State) {
    && rid in s.recycled && s.recycled[rid].userFile in s.userFiles
    && var x := s.recycled[rid].userFile;
    && s.userFiles[x].trashed
    && t.recycled == s.recycled - {rid}
    && t.userFiles == s.userFiles - {x}
    && t.fileInfos == s.fileInfos - (if LiveRefs(s, s.userFiles[x].file) == {} then {s.userFiles[x].file} else {})
    && t.dirs == s.dirs && t.next == s.next
  }

  /** The first turn of the loop. */
  lemma {:induction false} FirstPurge(s: State, ids: seq<Id>) returns (t: State)
    requires TrashMatches(s) && AllRecorded(s, ids) && ids != []
    ensures Purged(s, ids[0], t) && TrashMatches(t)
    ensures t.users == Credited(s, s.recycled[ids[0]].user, SizeSum(s.fileInfos, Dropped(s, t)))
    ensures PurgeAll(s, ids, Faultless(|ids|)).0 == PurgeAll(t, ids[1..], Faultless(|ids| - 1)).0
    ensures PurgeAll(s, ids, Faultless(|ids|)).1 == 1 + PurgeAll(t, ids[1..], Faultless(|ids| - 1)).1
  {
    t := Purge(s, ids[0], NO_FAULTS).0;
    PurgeTables(s, ids[0]);
    PurgeKeepsMatches(s, ids[0]);
    PurgeCredits(s, ids[0]);
    assert Faultless(|ids|)[1..] == Faultless(|ids| - 1);
  }

  lemma PurgedKeepsLiveRefs(s: State, rid: Id, t: State, f: Id)
    requires Purged(s, rid, t)
    ensures LiveRefs(t, f) == LiveRefs(s, f)
  {
  }

  lemma OneRecordEach(s: State, r: Id, r': Id)
    requires TrashMatches(s) && r in s.recycled && r' in s.recycled && r != r'
    ensures s.recycled[r].userFile != s.recycled[r'].userFile
  {
  }

  /** The records that remain, and their trashed files. */
  lemma PurgedLinks(s: State, ids: seq<Id>, t: State)
    requires NoDuplicates(ids) && AllRecorded(s, ids) && ids != [] && Purged(s, ids[0], t)
    requires TrashMatches(s)
    ensures AllRecorded(t, ids[1..]) && NoDuplicates(ids[1..])
    ensures forall r <- ids[1..] :: t.recycled[r] == s.recycled[r]
    ensures LinksOf(s, ids) == {s.recycled[ids[0]].userFile} + LinksOf(t, ids[1..])
    ensures s.recycled[ids[0]].userFile !in LinksOf(t, ids[1..])
    ensures (set r | r in ids) == {ids[0]} + (set r | r in ids[1..])
  {
    hide TrashMatches, LiveRefs;
    forall r | r in ids[1..]
      ensures r != ids[0] && r in t.recycled && t.recycled[r] == s.recycled[r]
      ensures s.recycled[r].userFile != s.recycled[ids[0]].userFile
    {
      assert r in ids;
      OneRecordEach(s, r, ids[0]);
    }
    assert forall r <- ids :: r == ids[0] || r in ids[1..];
  }

  /** A stored file is due with all the records when it goes with the first or is due with the rest. */
  lemma DeadStep(s: State, ids: seq<Id>, t: State, f: Id)
    requires NoDuplicates(ids) && AllRecorded(s, ids) && ids != [] && Purged(s, ids[0], t)
    requires TrashMatches(s) && AllRecorded(t, ids[1..])
    ensures f in DeadFiles(s, ids) <==> f in Dropped(s, t) || f in DeadFiles(t, ids[1..])
    ensures !(f in Dropped(s, t) && f in DeadFiles(t, ids[1..]))
  {
    var x := s.recycled[ids[0]].userFile;
    assert LinksOf(s, ids) == {x} + LinksOf(t, ids[1..]) && x !in LinksOf(t, ids[1..]) by {
      PurgedLinks(s, ids, t);
    }
    PurgedKeepsLiveRefs(s, ids[0], t, f);
    hide TrashMatches, NoDuplicates, LiveRefs, LinksOf, AllRecorded;
    if f == s.userFiles[x].file {
      assert x in LinksOf(s, ids) && Refers(s, x, f);
    } else {
      assert f !in Dropped(s, t);
      assert forall y <- LinksOf(t, ids[1..]) :: Refers(s, y, f) <==> Refers(t, y, f);
      assert !Refers(s, x, f);
    }
  }

  /** The stored files that remain to be dropped. */
  lemma PurgedDead(s: State, ids: seq<Id>, t: State)
    requires NoDuplicates(ids) && AllRecorded(s, ids) && ids != [] && Purged(s, ids[0], t)
    requires TrashMatches(s) && AllRecorded(t, ids[1..])
    ensures DeadFiles(s, ids) == Dropped(s, t) + DeadFiles(t, ids[1..])
    ensures Dropped(s, t) !! DeadFiles(t, ids[1..])
  {
    hide DeadFiles, Dropped, Purged, TrashMatches, NoDuplicates;
    forall f
      ensures f in DeadFiles(s, ids) <==> f in Dropped(s, t) || f in DeadFiles(t, ids[1..])
      ensures !(f in Dropped(s, t) && f in DeadFiles(t, ids[1..]))
    {
      DeadStep(s, ids, t, f);
    }
  }

  /** `t` is `s` without the given records, their trashed files, and the stored files they kept alive. */
  ghost predicate Emptied(s: State, ids: seq<Id>, t: State)
    requires AllRecorded(s, ids)
  {
    && t.recycled == s.recycled - (set r | r in ids)
    && t.userFiles == s.userFiles - LinksOf(s, ids)
    && t.fileInfos == s.fileInfos - DeadFiles(s, ids)
    && t.dirs == s.dirs && t.next == s.next
  }

  lemma CutTwice<K, V>(m: map<K, V>, a: set<K>, b: set<K>)
    ensures m - a - b == m - (a + b)
  {
  }

  lemma FirstLeaves(s: State, ids: seq<Id>, s1: State)
    requires TrashMatches(s) && NoDuplicates(ids) && AllRecorded(s, ids) && ids != [] && Purged(s, ids[0], s1)
    requires AllRecorded(s1, ids[1..])
    ensures s1.recycled == s.recycled - {ids[0]} && s1.userFiles == s.userFiles - {s.recycled[ids[0]].userFile}
    ensures s1.fileInfos == s.fileInfos - Dropped(s, s1) && s1.dirs == s.dirs && s1.next == s.next
    ensures (set r | r in ids) == {ids[0]} + (set r | r in ids[1..])
    ensures LinksOf(s, ids) == {s.recycled[ids[0]].userFile} + LinksOf(s1, ids[1..])
    ensures DeadFiles(s, ids) == Dropped(s, s1) + DeadFiles(s1, ids[1..])
  {
    hide TrashMatches, DeadFiles, LinksOf;
    PurgedLinks(s, ids, s1);
    PurgedDead(s, ids, s1);
  }

  lemma EmptiedStep(s: State, ids: seq<Id>, s1: State, t: State)
    requires TrashMatches(s) && NoDuplicates(ids) && AllRecorded(s, ids) && ids != [] && Purged(s, ids[0], s1)
    requires AllRecorded(s1, ids[1..])
    requires Emptied(s1, ids[1..], t)
    ensures Emptied(s, ids, t)
  {
    FirstLeaves(s, ids, s1);
    hide TrashMatches, NoDuplicates, DeadFiles, LinksOf, Dropped, AllRecorded, Purged;
    CutTwice(s.recycled, {ids[0]}, set r | r in ids[1..]);
    CutTwice(s.userFiles, {s.recycled[ids[0]].userFile}, LinksOf(s1, ids[1..]));
    CutTwice(s.fileInfos, Dropped(s, s1), DeadFiles(s1, ids[1..]));
  }

  /** Whatever order the records come in, purging them removes exactly those records, exactly their
      trashed files, and exactly the stored files behind them that no live file refers to. */
  lemma {:induction false} PurgeAllTables(s: State, ids: seq<Id>)
    requires TrashMatches(s) && NoDuplicates(ids) && AllRecorded(s, ids)
    ensures Emptied(s, ids, PurgeAll(s, ids, Faultless(|ids|)).0)
    ensures PurgeAll(s, ids, Faultless(|ids|)).1 == |ids|
    decreases |ids|
  {
    hide Purge;
    if ids == [] {
      assert LinksOf(s, ids) == {} && DeadFiles(s, ids) == {};
    } else {
      var s1 := FirstPurge(s, ids);
      PurgedLinks(s, ids, s1);
      PurgeAllTables(s1, ids[1..]);
      EmptiedStep(s, ids, s1, PurgeAll(s1, ids[1..], Faultless(|ids| - 1)).0);
    }
  }

  lemma {:induction false} PurgeCredits(s: State, rid: Id)
    requires rid in s.recycled
    ensures var t, user := Purge(s, rid, NO_FAULTS).0, s.recycled[rid].user;
            t.users == Credited(s, user, SizeSum(s.fileInfos, Dropped(s, t)))
  {
    hide Purge, SizeSum, Credited, ReturnSpace;
    PurgePays(s, rid);
    CreditedIsReturned(s, s.recycled[rid].user, SizeSum(s.fileInfos, Dropped(s, Purge(s, rid, NO_FAULTS).0)));
  }

  lemma CreditedIsReturned(s: State, user: string, amount: nat)
    ensures Credited(s, user, amount) == ReturnSpace(s, user, amount, false).users
    ensures amount == 0 ==> Credited(s, user, amount) == s.users
  {
  }

  /** The users after `user`, if limited, is given `amount` back. */
  ghost function Credited(s: State, user: string, amount: int): map<string, User> {
    if Limited(s, user) then s.users[user := s.users[user].(free := s.users[user].free + amount)] else s.users
  }

  lemma {:induction false} SizeSumSplit(infos: map<Id, FileInfo>, a: set<Id>, b: set<Id>)
    requires a <= infos.Keys && b <= infos.Keys && a !! b
    ensures SizeSum(infos, a + b) == SizeSum(infos, a) + SizeSum(infos, b)
  {
    if a == {} {
      assert a + b == b;
    } else {
      var f :| f in a;
      SizeSumTake(infos, a, f);
      SizeSumTake(infos, a + b, f);
      SizeSumSplit(infos, a - {f}, b);
      assert a + b - {f} == (a - {f}) + b;
    }
  }

  lemma SizesAdd(s: State, ids: seq<Id>, s1: State)
    requires TrashMatches(s) && NoDuplicates(ids) && AllRecorded(s, ids) && ids != [] && Purged(s, ids[0], s1)
    requires AllRecorded(s1, ids[1..])
    ensures SizeSum(s.fileInfos, DeadFiles(s, ids))
            == SizeSum(s.fileInfos, Dropped(s, s1)) + SizeSum(s1.fileInfos, DeadFiles(s1, ids[1..]))
  {
    var gone, rest := Dropped(s, s1), DeadFiles(s1, ids[1..]);
    assert DeadFiles(s, ids) == gone + rest && gone !! rest by {
      PurgedDead(s, ids, s1);
    }
    SizeSumSame(s.fileInfos, s1.fileInfos, rest);
    SizeSumSplit(s.fileInfos, gone, rest);
  }

  lemma CreditsAdd(s: State, s1: State, user: string, a: int, b: int)
    requires s1.users == Credited(s, user, a)
    ensures Credited(s1, user, b) == Credited(s, user, a + b)
  {
  }

  lemma NothingCredited(s: State, user: string)
    ensures Credited(s, user, SizeSum(s.fileInfos, DeadFiles(s, []))) == s.users
  {
    assert DeadFiles(s, []) == {};
  }

  /** When all the records are one user's, that user, if limited, is credited the sizes of the dropped
      files, each once however many records share it; nobody else's account changes. */
  lemma {:induction false} PurgeAllCredits(s: State, ids: seq<Id>, user: string)
    requires TrashMatches(s) && NoDuplicates(ids) && AllRecorded(s, ids)
    requires forall r <- ids :: s.recycled[r].user == user
    ensures PurgeAll(s, ids, Faultless(|ids|)).0.users
            == Credited(s, user, SizeSum(s.fileInfos, DeadFiles(s, ids)))
    decreases |ids|
  {
    hide Purge, TrashMatches, Purged, LinksOf, SizeSum, LiveRefs, Credited;
    if ids == [] {
      NothingCredited(s, user);
    } else {
      var s1 := FirstPurge(s, ids);
      PurgedLinks(s, ids, s1);
      assert s.recycled[ids[0]].user == user;
      forall r <- ids[1..] ensures s1.recycled[r].user == user {
        assert s.recycled[r].user == user;
      }
      PurgeAllCredits(s1, ids[1..], user);
      SizesAdd(s, ids, s1);
      CreditsAdd(s, s1, user, SizeSum(s.fileInfos, Dropped(s, s1)), SizeSum(s1.fileInfos, DeadFiles(s1, ids[1..])));
    }
  }

  /** The record is for a UserFile of the stored file `f`. */
  ghost predicate IsFor(s: State, rid: Id, f: Id) {
    rid in s.recycled && Refers(s, s.recycled[rid].userFile, f)
  }

  /** The first of the records that are for stored file `f` is `u`'s. */
  ghost predicate FirstIs(s: State, ids: seq<Id>, f: Id, u: string)
    requires AllRecorded(s, ids)
    decreases |ids|
  {
    ids != [] && if IsFor(s, ids[0], f) then s.recycled[ids[0]].user == u else FirstIs(s, ids[1..], f, u)
  }

  /** The stored files whose sizes `u` is given back. */
  ghost function PaidTo(s: State, ids: seq<Id>, u: string): set<Id>
    requires AllRecorded(s, ids)
  {
    set f | f in DeadFiles(s, ids) && FirstIs(s, ids, f, u)
  }

  lemma {:induction false} FirstIsKept(s: State, t: State, ids: seq<Id>, f: Id, u: string)
    requires AllRecorded(s, ids) && AllRecorded(t, ids)
    requires forall r <- ids :: t.recycled[r].user == s.recycled[r].user && IsFor(t, r, f) == IsFor(s, r, f)
    ensures FirstIs(t, ids, f, u) == FirstIs(s, ids, f, u)
    decreases |ids|
  {
    hide IsFor;
    if ids != [] {
      FirstIsKept(s, t, ids[1..], f, u);
    }
  }

  /** A file that goes with the first record is paid to that record's owner, any other as by the rest. */
  lemma PaidStep(s: State, ids: seq<Id>, t: State, f: Id, u: string)
    requires NoDuplicates(ids) && AllRecorded(s, ids) && ids != [] && Purged(s, ids[0], t)
    requires TrashMatches(s) && AllRecorded(t, ids[1..]) && forall r <- ids[1..] :: t.recycled[r] == s.recycled[r]
    ensures f in PaidTo(s, ids, u) <==> (f in Dropped(s, t) && s.recycled[ids[0]].user == u) || f in PaidTo(t, ids[1..], u)
    ensures !(f in Dropped(s, t) && f in PaidTo(t, ids[1..], u))
  {
    DeadStep(s, ids, t, f);
    RestIsFor(s, ids, t, f);
    FirstIsKept(s, t, ids[1..], f, u);
    FirstFile(s, ids, t, f);
    hide TrashMatches, Purged, NoDuplicates, DeadFiles, Dropped, IsFor;
  }

  lemma RestIsFor(s: State, ids: seq<Id>, t: State, f: Id)
    requires NoDuplicates(ids) && AllRecorded(s, ids) && ids != [] && Purged(s, ids[0], t)
    requires TrashMatches(s) && AllRecorded(t, ids[1..])
    ensures forall r <- ids[1..] :: t.recycled[r] == s.recycled[r] && IsFor(t, r, f) == IsFor(s, r, f)
  {
    PurgedLinks(s, ids, t);
    hide TrashMatches, NoDuplicates, LiveRefs;
    forall r | r in ids[1..] ensures t.recycled[r].userFile != s.recycled[ids[0]].userFile {
      assert t.recycled[r].userFile in LinksOf(t, ids[1..]);
    }
  }

  lemma FirstFile(s: State, ids: seq<Id>, t: State, f: Id)
    requires AllRecorded(s, ids) && ids != [] && Purged(s, ids[0], t)
    requires TrashMatches(s) && AllRecorded(t, ids[1..])
    ensures f in Dropped(s, t) ==> IsFor(s, ids[0], f)
    ensures f in DeadFiles(t, ids[1..]) ==> !IsFor(s, ids[0], f)
  {
    PurgedKeepsLiveRefs(s, ids[0], t, f);
    assert Points(s, s.recycled[ids[0]]);
  }

  lemma PaidSizes(s: State, ids: seq<Id>, t: State, u: string)
    requires NoDuplicates(ids) && AllRecorded(s, ids) && ids != [] && Purged(s, ids[0], t)
    requires TrashMatches(s) && AllRecorded(t, ids[1..]) && forall r <- ids[1..] :: t.recycled[r] == s.recycled[r]
    ensures SizeSum(s.fileInfos, PaidTo(s, ids, u))
            == (if s.recycled[ids[0]].user == u then SizeSum(s.fileInfos, Dropped(s, t)) else 0)
               + SizeSum(t.fileInfos, PaidTo(t, ids[1..], u))
  {
    var gone, rest := if s.recycled[ids[0]].user == u then Dropped(s, t) else {}, PaidTo(t, ids[1..], u);
    assert forall f <- rest :: f in s.fileInfos && s.fileInfos[f] == t.fileInfos[f];
    hide TrashMatches, Purged, NoDuplicates, DeadFiles, SizeSum;
    forall f ensures f in PaidTo(s, ids, u) <==> f in gone + rest ensures !(f in gone && f in rest) {
      PaidStep(s, ids, t, f, u);
    }
    assert PaidTo(s, ids, u) == gone + rest && gone !! rest;
    SizeSumSame(s.fileInfos, t.fileInfos, rest);
    SizeSumSplit(s.fileInfos, gone, rest);
    DroppedNone(s, s);
  }

  /** The account of `u` after the sizes due to it have been given back, if it is limited. */
  ghost function Paid(s: State, ids: seq<Id>, u: string): User
    requires AllRecorded(s, ids) && u in s.users
  {
    s.users[u].(free := s.users[u].free + if s.users[u].space > 0 then SizeSum(s.fileInfos, PaidTo(s, ids, u)) else 0)
  }

  ghost predicate AllPaid(s: State, ids: seq<Id>, t: State)
    requires AllRecorded(s, ids)
  {
    t.users.Keys == s.users.Keys && forall u <- s.users :: t.users[u] == Paid(s, ids, u)
  }

  /** Whoever the records belong to: every limited user is given back the sizes of the dropped files for
      which the first record in the list was theirs, each once, and nothing else about users changes. */
  lemma {:induction false} PurgeAllPays(s: State, ids: seq<Id>, u: string)
    requires TrashMatches(s) && NoDuplicates(ids) && AllRecorded(s, ids) && u in s.users
    ensures var t := PurgeAll(s, ids, Faultless(|ids|)).0;
            && t.users.Keys == s.users.Keys
            && t.users[u] == Paid(s, ids, u)
    decreases |ids|
  {
    hide Purge, TrashMatches, Purged, LinksOf, SizeSum, LiveRefs;
    if ids == [] {
      NothingPaid(s, u);
    } else {
      var s1 := FirstPurge(s, ids);
      PurgedLinks(s, ids, s1);
      PurgeAllPays(s1, ids[1..], u);
      PaidSizes(s, ids, s1, u);
    }
  }

  lemma {:induction false} EveryonePaid(s: State, ids: seq<Id>)
    requires TrashMatches(s) && NoDuplicates(ids) && AllRecorded(s, ids)
    ensures AllPaid(s, ids, PurgeAll(s, ids, Faultless(|ids|)).0)
  {
    hide TrashMatches, NoDuplicates, PurgeAll, Paid;
    PurgeAllKeepsUsers(s, ids);
    forall u | u in s.users {
      PurgeAllPays(s, ids, u);
    }
  }

  lemma {:induction false} PurgeAllKeepsUsers(s: State, ids: seq<Id>)
    ensures PurgeAll(s, ids, Faultless(|ids|)).0.users.Keys == s.users.Keys
    decreases |ids|
  {
    if ids != [] {
      assert Faultless(|ids|)[1..] == Faultless(|ids| - 1);
      PurgeAllKeepsUsers(Purge(s, ids[0], NO_FAULTS).0, ids[1..]);
    }
  }

  lemma NothingPaid(s: State, u: string)
    ensures SizeSum(s.fileInfos, PaidTo(s, [], u)) == 0
  {
    assert PaidTo(s, [], u) == {};
  }

  /** Emptying a trash of any size removes the listed records, up to 10000 of the user's, with the files they
      are for and the stored files behind those that no live file refers to, whose sizes come back once each;
      the rest of the user's trash is left for another call. */
  lemma {:induction false} EmptyClearsListed(s: State, user: string, ids: seq<Id>)
    requires TrashMatches(s) && ListsTrash(s, user, ids, EMPTY_LIMIT)
    ensures var (t, deleted) := PurgeAll(s, ids, Faultless(|ids|));
            && deleted == |ids| == (if |TrashOf(s, user)| <= EMPTY_LIMIT then |TrashOf(s, user)| else EMPTY_LIMIT)
            && Emptied(s, ids, t)
            && t.users == Credited(s, user, SizeSum(s.fileInfos, DeadFiles(s, ids)))
            && |TrashOf(t, user)| == |TrashOf(s, user)| - |ids|
  {
    var t := PurgeAll(s, ids, Faultless(|ids|)).0;
    ListedAreRecorded(s, user, ids);
    PurgeAllTables(s, ids);
    PurgeAllCredits(s, ids, user);
    hide TrashMatches, PurgeAll, LinksOf, DeadFiles, NoDuplicates, SizeSum, Credited;
    DistinctCount(ids);
    assert TrashOf(t, user) == TrashOf(s, user) - (set r | r in ids);
  }

  lemma ListedAreRecorded(s: State, user: string, ids: seq<Id>)
    requires ListsTrash(s, user, ids, EMPTY_LIMIT)
    ensures AllRecorded(s, ids) && NoDuplicates(ids) && forall r <- ids :: s.recycled[r].user == user
    ensures (set r | r in ids) <= TrashOf(s, user)
  {
    assert forall r <- ids :: r in TrashOf(s, user);
  }

  /** Emptying a trash of at most 10000 records, in whatever order they are listed: the user's whole trash
      goes, the stored files that only it kept alive go, and their sizes come back once each. */
  lemma EmptyClearsTrash(s: State, user: string, ids: seq<Id>)
    requires TrashMatches(s) && |TrashOf(s, user)| <= EMPTY_LIMIT && ListsTrash(s, user, ids, EMPTY_LIMIT)
    ensures var (t, deleted) := PurgeAll(s, ids, Faultless(|ids|));
            && deleted == |TrashOf(s, user)|
            && t.recycled == s.recycled - TrashOf(s, user)
            && t.userFiles == s.userFiles - TrashedBy(s, user)
            && t.fileInfos == s.fileInfos - OnlyInTrashOf(s, user)
            && t.users == Credited(s, user, SizeSum(s.fileInfos, OnlyInTrashOf(s, user)))
  {
    ListCoversSet(ids, TrashOf(s, user));
    assert (set r | r in ids) == TrashOf(s, user);
    TrashedLinks(s, user, ids);
    TrashedDead(s, user, ids);
    hide TrashMatches, LinksOf, DeadFiles, PurgeAll, TrashOf, TrashedBy, OnlyInTrashOf, SizeSum, Credited;
    PurgeAllTables(s, ids);
    PurgeAllCredits(s, ids, user);
  }

  ghost predicate AllOf(s: State, user: string, ids: seq<Id>) {
    AllRecorded(s, ids) && (set r | r in ids) == TrashOf(s, user)
  }

  lemma TrashedLinks(s: State, user: string, ids: seq<Id>)
    requires TrashMatches(s) && AllOf(s, user, ids)
    ensures LinksOf(s, ids) == TrashedBy(s, user)
  {
    forall x ensures x in LinksOf(s, ids) <==> x in TrashedBy(s, user) {
      if x in TrashedBy(s, user) {
        var r :| RecordOf(s, r, x);
        assert Points(s, s.recycled[r]);
        assert r in TrashOf(s, user);
      }
      if x in LinksOf(s, ids) {
        var r :| r in ids && s.recycled[r].userFile == x;
        assert r in TrashOf(s, user) && Points(s, s.recycled[r]);
      }
    }
  }

  lemma TrashedDead(s: State, user: string, ids: seq<Id>)
    requires TrashMatches(s) && AllOf(s, user, ids)
    ensures DeadFiles(s, ids) == OnlyInTrashOf(s, user)
  {
    TrashedLinks(s, user, ids);
    hide TrashMatches, AllOf, LinksOf, LiveRefs;
  }

  ghost function TrashedBy(s: State, user: string): set<Id> {
    set x | x in s.userFiles && s.userFiles[x].trashed && s.userFiles[x].user == user
  }

  /** The stored files in the user's trash that no live file refers to. */
  ghost function OnlyInTrashOf(s: State, user: string): set<Id> {
    set f | f in s.fileInfos && LiveRefs(s, f) == {}
            && exists x :: Refers(s, x, f) && s.userFiles[x].trashed && s.userFiles[x].user == user
  }

  ghost predicate HasExpired(s: State, before: int, x: Id) {
    exists r :: RecordOf(s, r, x) && s.recycled[r].createdAt < before
  }

  /** Cleaning expired records removes exactly those, with the files they were for and no others. */
  lemma {:induction false} CleanExpiredClears(s: State, before: int, ids: seq<Id>)
    requires TrashMatches(s) && ListsExpired(s, before, ids)
    ensures var (t, deleted) := PurgeAll(s, ids, Faultless(|ids|));
            && deleted == |ids|
            && t.recycled == s.recycled - (set r | r in s.recycled && s.recycled[r].createdAt < before)
            && t.userFiles == s.userFiles - (set x | x in s.userFiles && HasExpired(s, before, x))
            && t.fileInfos == s.fileInfos - DeadFiles(s, ids)
            && AllPaid(s, ids, t)
  {
    ExpiredLinks(s, before, ids);
    assert NoDuplicates(ids);
    assert (set r | r in ids) == set r | r in s.recycled && s.recycled[r].createdAt < before;
    hide TrashMatches, LinksOf, DeadFiles, PurgeAll, HasExpired, AllPaid, ListsExpired, NoDuplicates, AllRecorded;
    PurgeAllTables(s, ids);
    EveryonePaid(s, ids);
  }

  lemma ExpiredLinks(s: State, before: int, ids: seq<Id>)
    requires TrashMatches(s) && ListsExpired(s, before, ids)
    ensures AllRecorded(s, ids) && LinksOf(s, ids) == set x | x in s.userFiles && HasExpired(s, before, x)
  {
    forall x ensures x in LinksOf(s, ids) <==> x in s.userFiles && HasExpired(s, before, x) {
      if x in LinksOf(s, ids) {
        var r :| r in ids && s.recycled[r].userFile == x;
        assert RecordOf(s, r, x) && Points(s, s.recycled[r]);
      }
    }
  }

  /** What Empty leaves behind is still a matched trash without leaks. */
  lemma EmptyKeepsOrder(s: State, ids: seq<Id>)
    requires Safe(s) && TrashMatches(s) && NoLeak(s)
    ensures var t := PurgeAll(s, ids, Faultless(|ids|)).0; Safe(t) && TrashMatches(t) && NoLeak(t)
  {
    var ops := PurgeOps(ids, Faultless(|ids|));
    PurgeAllIsRun(s, LiveOnly, ids, Faultless(|ids|));
    LiveOnlyRunNeverRetrashes(s, ops);
    FailureFreeRun(s, LiveOnly, ops);
  }
}
