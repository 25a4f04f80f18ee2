/** Moving files to the trash and restoring them, in any order. */
module RoundTrip {
  import opened Basics
  import opened Storage
  import opened Results

  /** Distinct live files of the user. */
  ghost predicate LiveFilesOf(s: State, user: string, xs: seq<Id>) {
    NoDuplicates(xs) && forall i | 0 <= i < |xs| :: IsLive(s, xs[i]) && s.userFiles[xs[i]].user == user
  }

  /** Every file has somewhere to go: its directory still exists, or the user has a root. */
  ghost predicate Restorable(s: State, xs: seq<Id>, root: Option<nat>) {
    root.Some? || forall i | 0 <= i < |xs| :: xs[i] in s.userFiles && !DirGone(s, s.userFiles[xs[i]].dir)
  }

  /** The directory a file is in after the round trip. */
  function HomeDir(s: State, dir: string, root: Option<nat>): string {
    if DirGone(s, dir) && root.Some? then Itoa(root.value) else dir
  }

  /** How file `x` looks when `xs` are in the trash and those of `back` restored since. */
  function Shown(s: State, xs: seq<Id>, root: Option<nat>, back: set<Id>, x: Id): UserFile
    requires x in s.userFiles
  {
    if x !in xs then s.userFiles[x]
    else if x in back then s.userFiles[x].(dir := HomeDir(s, s.userFiles[x].dir, root))
    else s.userFiles[x].(trashed := true)
  }

  /** `r` is the record of a file of `xs` that has not been restored. */
  predicate Waiting(s: State, xs: seq<Id>, back: set<Id>, r: Id) {
    s.next <= r < s.next + |xs| && xs[r - s.next] !in back
  }

  function RecordFor(s: State, user: string, xs: seq<Id>, now: int, r: Id): Recycled
    requires LiveFilesOf(s, user, xs) && s.next <= r < s.next + |xs|
  {
    Recycled(user, xs[r - s.next], s.userFiles[xs[r - s.next]].file, now)
  }

  /** `t` is `s` with `xs` moved to the trash, the files of `back` restored since. */
  ghost predicate Between(s: State, user: string, xs: seq<Id>, now: int, root: Option<nat>, back: set<Id>, t: State)
    requires LiveFilesOf(s, user, xs)
  {
    && t.users == s.users && t.fileInfos == s.fileInfos && t.dirs == s.dirs
    && t.next == s.next + |xs|
    && FilesBetween(s, xs, root, back, t) && RecordsBetween(s, user, xs, now, back, t)
  }

  ghost predicate FilesBetween(s: State, xs: seq<Id>, root: Option<nat>, back: set<Id>, t: State) {
    && t.userFiles.Keys == s.userFiles.Keys
    && forall x <- s.userFiles :: t.userFiles[x] == Shown(s, xs, root, back, x)
  }

  ghost predicate RecordsBetween(s: State, user: string, xs: seq<Id>, now: int, back: set<Id>, t: State)
    requires LiveFilesOf(s, user, xs)
  {
    && (forall r :: r in t.recycled <==> r in s.recycled || Waiting(s, xs, back, r))
    && (forall r <- s.recycled :: t.recycled[r] == s.recycled[r])
    && (forall r | Waiting(s, xs, back, r) :: t.recycled[r] == RecordFor(s, user, xs, now, r))
  }

  function TrashOp(user: string, x: Id, now: int): Op {
    DoTrash(user, x, now, TrashFaults(false, false))
  }

  function RestoreOp(user: string, rid: Id, root: Option<nat>): Op {
    DoRestore(user, rid, root, RestoreFaults(false, false))
  }

  function TrashOps(user: string, xs: seq<Id>, now: int): seq<Op> {
    seq(|xs|, i requires 0 <= i < |xs| => TrashOp(user, xs[i], now))
  }

  function RestoreOps(user: string, first: Id, order: seq<nat>, root: Option<nat>): seq<Op> {
    seq(|order|, i requires 0 <= i < |order| => RestoreOp(user, first + order[i], root))
  }

  lemma FilesTrashed(s: State, xs: seq<Id>, root: Option<nat>, a: State, t: State)
    requires xs != [] && FilesBetween(s, xs[..|xs| - 1], root, {}, a) && xs[|xs| - 1] in s.userFiles
    requires t.userFiles == a.userFiles[xs[|xs| - 1] := s.userFiles[xs[|xs| - 1]].(trashed := true)]
    ensures FilesBetween(s, xs, root, {}, t)
  {
    hide HomeDir;
    forall y | y in s.userFiles ensures t.userFiles[y] == Shown(s, xs, root, {}, y) {
      assert y in xs <==> y in xs[..|xs| - 1] || y == xs[|xs| - 1];
    }
  }

  lemma RecordsTrashed(s: State, user: string, xs: seq<Id>, now: int, a: State, t: State)
    requires Known(s) && xs != [] && LiveFilesOf(s, user, xs) && LiveFilesOf(s, user, xs[..|xs| - 1])
    requires RecordsBetween(s, user, xs[..|xs| - 1], now, {}, a) && a.next == s.next + |xs| - 1
    requires t.recycled == a.recycled[a.next := RecordFor(s, user, xs, now, a.next)]
    ensures RecordsBetween(s, user, xs, now, {}, t)
  {
    var front := xs[..|xs| - 1];
    forall r ensures Waiting(s, xs, {}, r) <==> Waiting(s, front, {}, r) || r == a.next {
    }
    forall r | Waiting(s, xs, {}, r) ensures t.recycled[r] == RecordFor(s, user, xs, now, r) {
      assert r == a.next || a.recycled[r] == RecordFor(s, user, front, now, r);
    }
  }

  /** Trashing the last of `xs`, told as table updates. */
  lemma BetweenTrashes(s: State, user: string, xs: seq<Id>, now: int, root: Option<nat>, a: State, t: State)
    requires Known(s) && xs != [] && LiveFilesOf(s, user, xs)
    requires LiveFilesOf(s, user, xs[..|xs| - 1]) && Between(s, user, xs[..|xs| - 1], now, root, {}, a)
    requires t == a.(userFiles := a.userFiles[xs[|xs| - 1] := s.userFiles[xs[|xs| - 1]].(trashed := true)],
                     recycled := a.recycled[a.next := RecordFor(s, user, xs, now, a.next)], next := a.next + 1)
    ensures Between(s, user, xs, now, root, {}, t)
  {
    hide FilesBetween, RecordsBetween, RecordFor;
    FilesTrashed(s, xs, root, a, t);
    RecordsTrashed(s, user, xs, now, a, t);
  }

  lemma {:induction false} TrashOne(s: State, lk: Lookup, user: string, xs: seq<Id>, now: int, root: Option<nat>, a: State)
    requires Known(s) && xs != [] && LiveFilesOf(s, user, xs)
    requires LiveFilesOf(s, user, xs[..|xs| - 1]) && Between(s, user, xs[..|xs| - 1], now, root, {}, a)
    ensures Between(s, user, xs, now, root, {}, Step(a, lk, TrashOp(user, xs[|xs| - 1], now)))
  {
    hide Between;
    var x := xs[|xs| - 1];
    assert a.userFiles.Keys == s.userFiles.Keys && a.userFiles[x] == s.userFiles[x] && a.next == s.next + |xs| - 1 by {
      LastUntouched(s, user, xs, now, root, a);
    }
    BetweenTrashes(s, user, xs, now, root, a, Step(a, lk, TrashOp(user, x, now)));
  }

  lemma LastUntouched(s: State, user: string, xs: seq<Id>, now: int, root: Option<nat>, a: State)
    requires xs != [] && LiveFilesOf(s, user, xs)
    requires LiveFilesOf(s, user, xs[..|xs| - 1]) && Between(s, user, xs[..|xs| - 1], now, root, {}, a)
    ensures a.userFiles.Keys == s.userFiles.Keys && a.next == s.next + |xs| - 1
    ensures a.userFiles[xs[|xs| - 1]] == s.userFiles[xs[|xs| - 1]]
  {
    assert xs[|xs| - 1] !in xs[..|xs| - 1];
  }

  lemma NothingRun(s: State, lk: Lookup)
    ensures Run(s, lk, []) == s
  {
  }

  lemma FrontIsLive(s: State, user: string, xs: seq<Id>)
    requires LiveFilesOf(s, user, xs) && xs != []
    ensures LiveFilesOf(s, user, xs[..|xs| - 1])
  {
  }

  lemma {:induction false} TrashAll(s: State, lk: Lookup, user: string, xs: seq<Id>, now: int, root: Option<nat>)
    requires Known(s) && LiveFilesOf(s, user, xs)
    ensures Between(s, user, xs, now, root, {}, Run(s, lk, TrashOps(user, xs, now)))
  {
    hide Step, DirGone, Run;
    if xs == [] {
      assert TrashOps(user, xs, now) == [];
      NothingRun(s, lk);
    } else {
      FrontIsLive(s, user, xs);
      hide LiveFilesOf;
      var k := |xs| - 1;
      var ops, op := TrashOps(user, xs[..k], now), TrashOp(user, xs[k], now);
      TrashAll(s, lk, user, xs[..k], now, root);
      TrashOne(s, lk, user, xs, now, root, Run(s, lk, ops));
      assert TrashOps(user, xs, now) == ops + [op];
      RunSnoc(s, lk, ops, op);
    }
  }

  lemma FilesRestored(s: State, xs: seq<Id>, root: Option<nat>, back: set<Id>, x: Id, a: State, t: State)
    requires FilesBetween(s, xs, root, back, a) && x in s.userFiles && x in xs
    requires t.userFiles == a.userFiles[x := Shown(s, xs, root, back + {x}, x)]
    ensures FilesBetween(s, xs, root, back + {x}, t)
  {
    hide HomeDir;
  }

  lemma RecordsRestored(s: State, user: string, xs: seq<Id>, now: int, back: set<Id>, i: nat, a: State, t: State)
    requires Known(s) && LiveFilesOf(s, user, xs) && i < |xs| && xs[i] !in back
    requires RecordsBetween(s, user, xs, now, back, a) && t.recycled == a.recycled - {s.next + i}
    ensures RecordsBetween(s, user, xs, now, back + {xs[i]}, t)
  {
    hide RecordFor;
    var back' := back + {xs[i]};
    forall r ensures Waiting(s, xs, back', r) <==> Waiting(s, xs, back, r) && r != s.next + i {
    }
  }

  /** Restoring one file of `xs`, told as table updates. */
  lemma BetweenRestores(s: State, user: string, xs: seq<Id>, now: int, root: Option<nat>, back: set<Id>, i: nat, a: State, t: State)
    requires Known(s) && LiveFilesOf(s, user, xs)
    requires i < |xs| && xs[i] !in back && Between(s, user, xs, now, root, back, a)
    requires t == a.(userFiles := a.userFiles[xs[i] := Shown(s, xs, root, back + {xs[i]}, xs[i])],
                     recycled := a.recycled - {s.next + i})
    ensures Between(s, user, xs, now, root, back + {xs[i]}, t)
  {
    hide FilesBetween, RecordsBetween, Shown;
    FilesRestored(s, xs, root, back, xs[i], a, t);
    RecordsRestored(s, user, xs, now, back, i, a, t);
  }

  /** What a restore finds of the i-th trashed file. */
  lemma WaitingFile(s: State, user: string, xs: seq<Id>, now: int, root: Option<nat>, back: set<Id>, i: nat, a: State)
    requires LiveFilesOf(s, user, xs) && i < |xs| && xs[i] !in back && Between(s, user, xs, now, root, back, a)
    ensures s.next + i in a.recycled && a.recycled[s.next + i].user == user && a.recycled[s.next + i].userFile == xs[i]
    ensures xs[i] in s.userFiles && xs[i] in a.userFiles && a.userFiles[xs[i]] == s.userFiles[xs[i]].(trashed := true)
    ensures DirGone(a, s.userFiles[xs[i]].dir) == DirGone(s, s.userFiles[xs[i]].dir) && !s.userFiles[xs[i]].trashed
  {
    assert Waiting(s, xs, back, s.next + i);
    assert a.dirs == s.dirs;
  }

  lemma RestoreStep(s: State, lk: Lookup, user: string, xs: seq<Id>, root: Option<nat>, back: set<Id>, x: Id, rid: Id, a: State)
    requires Restorable(s, xs, root) && x in xs && x in s.userFiles && !s.userFiles[x].trashed
    requires rid in a.recycled && a.recycled[rid].user == user && a.recycled[rid].userFile == x
    requires x in a.userFiles && a.userFiles[x] == s.userFiles[x].(trashed := true)
    requires DirGone(a, s.userFiles[x].dir) == DirGone(s, s.userFiles[x].dir)
    ensures Step(a, lk, RestoreOp(user, rid, root))
            == a.(userFiles := a.userFiles[x := Shown(s, xs, root, back + {x}, x)], recycled := a.recycled - {rid})
  {
    hide DirGone;
  }

  lemma {:induction false} RestoreOne(s: State, lk: Lookup, user: string, xs: seq<Id>, now: int, root: Option<nat>, back: set<Id>, i: nat, a: State)
    requires Known(s) && LiveFilesOf(s, user, xs) && Restorable(s, xs, root)
    requires i < |xs| && xs[i] !in back && Between(s, user, xs, now, root, back, a)
    ensures Between(s, user, xs, now, root, back + {xs[i]}, Step(a, lk, RestoreOp(user, s.next + i, root)))
  {
    hide Between, Step, DirGone, Restorable, Shown, Known, LiveFilesOf;
    WaitingFile(s, user, xs, now, root, back, i, a);
    RestoreStep(s, lk, user, xs, root, back, xs[i], s.next + i, a);
    BetweenRestores(s, user, xs, now, root, back, i, a, Step(a, lk, RestoreOp(user, s.next + i, root)));
  }

  ghost function Restored(xs: seq<Id>, order: seq<nat>): set<Id>
    requires forall i | 0 <= i < |order| :: order[i] < |xs|
  {
    set i | 0 <= i < |order| :: xs[order[i]]
  }

  lemma {:induction false} RestoreAll(s: State, lk: Lookup, user: string, xs: seq<Id>, now: int, root: Option<nat>, order: seq<nat>, a: State)
    requires Known(s) && LiveFilesOf(s, user, xs) && Restorable(s, xs, root)
    requires NoDuplicates(order) && forall i | 0 <= i < |order| :: order[i] < |xs|
    requires Between(s, user, xs, now, root, {}, a)
    ensures Between(s, user, xs, now, root, Restored(xs, order), Run(a, lk, RestoreOps(user, s.next, order, root)))
  {
    hide Step, DirGone, Known, Waiting, Shown, RecordFor;
    if order == [] {
      assert Restored(xs, order) == {};
    } else {
      hide Between, LiveFilesOf;
      var k := |order| - 1;
      var front, op := RestoreOps(user, s.next, order[..k], root), RestoreOp(user, s.next + order[k], root);
      RestoreAll(s, lk, user, xs, now, root, order[..k], a);
      assert RestoreOps(user, s.next, order, root) == front + [op];
      RunSnoc(a, lk, front, op);
      assert xs[order[k]] !in Restored(xs, order[..k]);
      assert Restored(xs, order) == Restored(xs, order[..k]) + {xs[order[k]]};
      RestoreOne(s, lk, user, xs, now, root, Restored(xs, order[..k]), order[k], Run(a, lk, front));
    }
  }

  /** Every index below `n` is in a distinct list of `n` such indices. */
  lemma {:induction false} OrderCovers(order: seq<nat>, n: nat)
    requires NoDuplicates(order) && |order| == n && forall i | 0 <= i < |order| :: order[i] < n
    ensures forall i: nat | i < n :: i in order
  {
    var all: seq<nat> := seq(n, i => i);
    var indices := set i | i in all;
    assert forall i | 0 <= i < n :: all[i] == i;
    assert forall i | 0 <= i < |order| :: all[order[i]] in indices;
    DistinctCount(all);
    ListCoversSet(order, indices);
    forall i: nat | i < n ensures i in order {
      assert all[i] in indices;
    }
  }

  lemma RoundTripTables(s: State, lk: Lookup, user: string, xs: seq<Id>, now: int, root: Option<nat>, order: seq<nat>)
    requires Known(s) && LiveFilesOf(s, user, xs) && Restorable(s, xs, root)
    requires NoDuplicates(order) && |order| == |xs| && forall i | 0 <= i < |order| :: order[i] < |xs|
    ensures var t := Run(s, lk, TrashOps(user, xs, now) + RestoreOps(user, s.next, order, root));
            && t.recycled == s.recycled && t.fileInfos == s.fileInfos && t.users == s.users && t.dirs == s.dirs
            && t.userFiles == map x | x in s.userFiles ::
                 if x in xs && DirGone(s, s.userFiles[x].dir)
                 then s.userFiles[x].(dir := Itoa(root.value)) else s.userFiles[x]
  {
    hide Step, DirGone, Run, Known;
    var a := Run(s, lk, TrashOps(user, xs, now));
    TrashAll(s, lk, user, xs, now, root);
    RestoreAll(s, lk, user, xs, now, root, order, a);
    RunAppend(s, lk, TrashOps(user, xs, now), RestoreOps(user, s.next, order, root));
    OrderCovers(order, |xs|);
    forall x | x in xs ensures x in Restored(xs, order) {
      var i :| 0 <= i < |xs| && xs[i] == x;
      assert i in order;
      var j :| 0 <= j < |order| && order[j] == i;
    }
    forall r ensures !Waiting(s, xs, Restored(xs, order), r) {
    }
  }

  /** Every file's directory is there or not named by a number, or the user has a root. */
  ghost predicate HaveHomes(s: State, xs: seq<Id>, root: Option<nat>) {
    root.Some? || forall i | 0 <= i < |xs| :: xs[i] in s.userFiles && !PointsNowhere(s, s.userFiles[xs[i]].dir)
  }

  /** Trashing any of a user's live files and restoring them in any order puts every table back, except
      that a file whose directory text starts with a positive number that no directory has is now in the
      user's root. */
  lemma {:induction false} TrashRoundTrip(s: State, lk: Lookup, user: string, xs: seq<Id>, now: int, root: Option<nat>, order: seq<nat>)
    requires Known(s) && LiveFilesOf(s, user, xs) && HaveHomes(s, xs, root)
    requires NoDuplicates(order) && |order| == |xs| && forall i | 0 <= i < |order| :: order[i] < |xs|
    ensures var t := Run(s, lk, TrashOps(user, xs, now) + RestoreOps(user, s.next, order, root));
            && t.recycled == s.recycled && t.fileInfos == s.fileInfos && t.users == s.users && t.dirs == s.dirs
            && t.userFiles.Keys == s.userFiles.Keys
            && forall x <- s.userFiles ::
                 t.userFiles[x] == if x in xs && PointsNowhere(s, s.userFiles[x].dir)
                                   then s.userFiles[x].(dir := Itoa(root.value)) else s.userFiles[x]
  {
    forall x | x in s.userFiles ensures DirGone(s, s.userFiles[x].dir) <==> PointsNowhere(s, s.userFiles[x].dir) {
      GoneExactly(s, s.userFiles[x].dir);
    }
    hide DirGone, PointsNowhere, Run, NoDuplicates, Known;
    RoundTripTables(s, lk, user, xs, now, root, order);
  }

  /** A file moved to the root is in a directory that exists, so a second round trip changes nothing. */
  lemma RootIsHome(s: State, root: nat)
    requires root in s.dirs.rows && root <= MAX_INT64
    ensures !PointsNowhere(s, Itoa(root))
  {
    ItoaReadsBack(root);
    GoneExactly(s, Itoa(root));
  }
}
