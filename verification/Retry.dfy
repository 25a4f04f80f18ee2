/** Repeating a permanent delete after failures. Reads succeed; any write, and the reference count,
    may fail on any attempt. */
module Retry {
  import opened Basics
  import opened Storage

  /** The attempts in `fs` all fail but the last, which succeeds. */
  predicate FailThenSucceed(s: State, rid: Id, fs: seq<PurgeFaults>)
    decreases |fs|
  {
    && fs != []
    && (Purge(s, rid, fs[0]).1.Ok? <==> |fs| == 1)
    && (|fs| > 1 ==> FailThenSucceed(Purge(s, rid, fs[0]).0, rid, fs[1..]))
  }

  function Attempts(s: State, rid: Id, fs: seq<PurgeFaults>): State
    decreases |fs|
  {
    if fs == [] then s else Attempts(Purge(s, rid, fs[0]).0, rid, fs[1..])
  }

  /** Equal in everything but the users' free space. */
  predicate SameTables(s: State, t: State) {
    s.(users := t.users) == t
  }

  /** The attempt finds the physical file unshared and its returnSpace succeeds. */
  predicate Pays(s: State, rid: Id, f: PurgeFaults) {
    && rid in s.recycled && s.recycled[rid].userFile in s.userFiles
    && !f.count && !f.credit
    && Unshared(s, s.userFiles[s.recycled[rid].userFile].file)
  }

  function Payments(s: State, rid: Id, fs: seq<PurgeFaults>): nat
    decreases |fs|
  {
    if fs == [] then 0
    else (if Pays(s, rid, fs[0]) then 1 else 0) + Payments(Purge(s, rid, fs[0]).0, rid, fs[1..])
  }

  /** The size at stake: that of the record's physical file. */
  function Stake(s: State, rid: Id): nat {
    if rid in s.recycled && s.recycled[rid].userFile in s.userFiles
       && s.userFiles[s.recycled[rid].userFile].file in s.fileInfos
    then s.fileInfos[s.userFiles[s.recycled[rid].userFile].file].size else 0
  }

  /** What one attempt leaves of the state, in the terms of the attempt before it. */
  lemma FailedAttempt(s: State, rid: Id, f: PurgeFaults)
    requires rid in s.recycled && !Purge(s, rid, f).1.Ok?
    ensures var t := Purge(s, rid, f).0;
            && t.recycled == s.recycled
            && SameTables(Purge(t, rid, NO_FAULTS).0, Purge(s, rid, NO_FAULTS).0)
            && (Stake(t, rid) == Stake(s, rid) || forall g: PurgeFaults :: !Pays(t, rid, g))
  {
    var x := s.recycled[rid].userFile;
    var t := Purge(s, rid, f).0;
    if x in s.userFiles && !f.count {
      var file := s.userFiles[x].file;
      if x in t.userFiles {
        assert LiveRefs(t, file) == LiveRefs(s, file);
      }
    }
  }

  lemma SuccessfulAttempt(s: State, rid: Id, f: PurgeFaults)
    requires rid in s.recycled && Purge(s, rid, f).1.Ok?
    ensures SameTables(Purge(s, rid, f).0, Purge(s, rid, NO_FAULTS).0)
  {
  }

  lemma AttemptCredits(s: State, rid: Id, f: PurgeFaults, u: string)
    requires rid in s.recycled && u in s.users
    ensures var t := Purge(s, rid, f).0;
            && u in t.users && t.users[u].space == s.users[u].space
            && t.users[u].free == s.users[u].free
                 + (if u == s.recycled[rid].user && s.users[u].space > 0 && Pays(s, rid, f) then Stake(s, rid) else 0)
  {
  }

  /** However many attempts fail and wherever, the first that succeeds leaves the file, link and trash
      tables as one failure-free call would have. */
  lemma {:induction false} RetriesConverge(s: State, rid: Id, fs: seq<PurgeFaults>)
    requires rid in s.recycled && FailThenSucceed(s, rid, fs)
    ensures SameTables(Attempts(s, rid, fs), Purge(s, rid, NO_FAULTS).0)
    decreases |fs|
  {
    var t := Purge(s, rid, fs[0]).0;
    if |fs| == 1 {
      assert Attempts(s, rid, fs) == Attempts(t, rid, []) == t;
      SuccessfulAttempt(s, rid, fs[0]);
    } else {
      FailedAttempt(s, rid, fs[0]);
      RetriesConverge(t, rid, fs[1..]);
    }
  }

  lemma {:induction false} NothingMorePaid(s: State, rid: Id, fs: seq<PurgeFaults>, u: string)
    requires rid in s.recycled && u in s.users && FailThenSucceed(s, rid, fs)
    requires forall g: PurgeFaults :: !Pays(s, rid, g)
    ensures Payments(s, rid, fs) == 0
    ensures u in Attempts(s, rid, fs).users && Attempts(s, rid, fs).users[u].free == s.users[u].free
    decreases |fs|
  {
    var t := Purge(s, rid, fs[0]).0;
    AttemptCredits(s, rid, fs[0], u);
    if |fs| > 1 {
      FailedAttempt(s, rid, fs[0]);
      StillUnpayable(s, rid, fs[0]);
      NothingMorePaid(t, rid, fs[1..], u);
    }
  }

  lemma StillUnpayable(s: State, rid: Id, f: PurgeFaults)
    requires rid in s.recycled && !Purge(s, rid, f).1.Ok?
    requires forall g: PurgeFaults :: !Pays(s, rid, g)
    ensures forall g: PurgeFaults :: !Pays(Purge(s, rid, f).0, rid, g)
  {
    assert !Pays(s, rid, NO_FAULTS);
    var x := s.recycled[rid].userFile;
    var t := Purge(s, rid, f).0;
    if x in t.userFiles {
      assert LiveRefs(t, s.userFiles[x].file) == LiveRefs(s, s.userFiles[x].file);
    }
  }

  /** The record's limited owner is credited the file's size once for every attempt whose returnSpace
      succeeded, and nobody else's balance moves. */
  lemma {:induction false} CreditedPerAttempt(s: State, rid: Id, fs: seq<PurgeFaults>, u: string)
    requires rid in s.recycled && u in s.users && FailThenSucceed(s, rid, fs)
    ensures var t := Attempts(s, rid, fs);
            && u in t.users
            && t.users[u].free == s.users[u].free
                 + (if u == s.recycled[rid].user && s.users[u].space > 0 then Payments(s, rid, fs) * Stake(s, rid) else 0)
    decreases |fs|
  {
    var t := Purge(s, rid, fs[0]).0;
    var now, later, stake := if Pays(s, rid, fs[0]) then 1 else 0, Payments(t, rid, fs[1..]), Stake(s, rid);
    AttemptCredits(s, rid, fs[0], u);
    Distribute(now, later, stake);
    if |fs| == 1 {
      assert Attempts(s, rid, fs) == Attempts(t, rid, []) == t;
    } else {
      FailedAttempt(s, rid, fs[0]);
      hide Purge, Pays, Stake;
      if forall g: PurgeFaults :: !Pays(t, rid, g) {
        NothingMorePaid(t, rid, fs[1..], u);
      } else {
        CreditedPerAttempt(t, rid, fs[1..], u);
      }
    }
  }

  // ----- the same, told from the faults alone -----

  /** The record's physical file exists and no live file shares it, so that a purge returns its size. */
  predicate Owes(s: State, rid: Id) {
    && rid in s.recycled && s.recycled[rid].userFile in s.userFiles
    && Unshared(s, s.userFiles[s.recycled[rid].userFile].file)
  }

  /** How often the attempts with these faults pay: attempts whose count fails do nothing, the others pay
      unless the credit fails, and the first of them to delete the FileInfo is the last to pay. */
  function Paid(fs: seq<PurgeFaults>): nat
    decreases |fs|
  {
    if fs == [] then 0
    else if fs[0].count then Paid(fs[1..])
    else (if fs[0].credit then 0 else 1) + (if fs[0].info then Paid(fs[1..]) else 0)
  }

  lemma {:induction false} AttemptOwes(s: State, rid: Id, f: PurgeFaults)
    ensures Owes(Purge(s, rid, f).0, rid) <==> Owes(s, rid) && (f.count || f.info)
  {
    var t := Purge(s, rid, f).0;
    if rid in s.recycled && s.recycled[rid].userFile in s.userFiles {
      var file := s.userFiles[s.recycled[rid].userFile].file;
      if s.recycled[rid].userFile in t.userFiles {
        assert LiveRefs(t, file) == LiveRefs(s, file);
      }
    }
  }

  /** The payments of any attempts, failing or not, are settled by what is shared before the first and by
      the faults. */
  lemma {:induction false} PaymentsAreFlags(s: State, rid: Id, fs: seq<PurgeFaults>)
    ensures Payments(s, rid, fs) == if Owes(s, rid) then Paid(fs) else 0
    decreases |fs|
  {
    if fs != [] {
      AttemptOwes(s, rid, fs[0]);
      assert Pays(s, rid, fs[0]) <==> Owes(s, rid) && !fs[0].count && !fs[0].credit;
      hide Purge, Owes, Pays;
      PaymentsAreFlags(Purge(s, rid, fs[0]).0, rid, fs[1..]);
    }
  }

  /** What one attempt does to the account of `u`. */
  lemma {:induction false} AttemptPays(s: State, rid: Id, f: PurgeFaults, u: string)
    requires u in s.users
    ensures var t := Purge(s, rid, f).0;
            && u in t.users
            && t.users[u] == (if Owed(s, rid, u) && !f.count && !f.credit
                              then s.users[u].(free := s.users[u].free + Stake(s, rid)) else s.users[u])
            && (Owes(t, rid) ==> Stake(t, rid) == Stake(s, rid) && t.recycled == s.recycled)
  {
    if Owes(s, rid) {
      var t := Purge(s, rid, f).0;
      assert Owes(t, rid) ==> t.userFiles == s.userFiles;
    }
    AttemptOwes(s, rid, f);
  }

  /** A purge of the record pays to `u`. */
  predicate Owed(s: State, rid: Id, u: string) {
    Owes(s, rid) && s.recycled[rid].user == u && u in s.users && s.users[u].space > 0
  }

  /** After any attempts at all: the record's limited owner has been credited the size as often as the faults
      say if the file was unshared, and otherwise no balance has moved. */
  lemma {:induction false} CreditedByFlags(s: State, rid: Id, fs: seq<PurgeFaults>, u: string)
    requires u in s.users
    ensures var t := Attempts(s, rid, fs);
            && u in t.users
            && t.users[u] == s.users[u].(free := s.users[u].free + if Owed(s, rid, u) then Paid(fs) * Stake(s, rid) else 0)
    decreases |fs|
  {
    if fs != [] {
      var t, stake := Purge(s, rid, fs[0]).0, Stake(s, rid);
      AttemptPays(s, rid, fs[0], u);
      AttemptOwes(s, rid, fs[0]);
      CreditedByFlags(t, rid, fs[1..], u);
      Distribute(if fs[0].credit then 0 else 1, if fs[0].info then Paid(fs[1..]) else 0, stake);
      hide Purge, Owes, Stake;
    }
  }

  /** An unshared file's limited owner is credited at most once exactly when the faults allow one payment. */
  lemma {:induction false} CreditedOnceExactly(s: State, rid: Id, fs: seq<PurgeFaults>, u: string)
    requires Owed(s, rid, u) && Stake(s, rid) > 0
    ensures var t := Attempts(s, rid, fs);
            u in t.users && (t.users[u].free <= s.users[u].free + Stake(s, rid) <==> Paid(fs) <= 1)
  {
    CreditedByFlags(s, rid, fs, u);
    hide Attempts, Owed, Stake;
    var stake := Stake(s, rid);
    if Paid(fs) >= 2 {
      assert Paid(fs) * stake == 2 * stake + (Paid(fs) - 2) * stake;
    }
  }

  lemma Distribute(a: nat, b: nat, c: nat)
    ensures (a + b) * c == a * c + b * c
  {
  }

  const STUCK: State :=
    State(map[1 := UserFile("a", 0, "f", "", false, true)], map[0 := FileInfo("f", 5, false, "", "", "", "", "")],
          map[2 := Recycled("a", 1, 0, 0)], map["a" := User(100, 50)], Directory.Dirs(map[], 1), 3)

  /** One failed FileInfo delete and a retry: the owner of a 5-byte file is credited 10. */
  lemma DoubleCreditWitness()
    ensures FailThenSucceed(STUCK, 2, [NO_FAULTS.(info := true), NO_FAULTS])
    ensures Attempts(STUCK, 2, [NO_FAULTS.(info := true), NO_FAULTS]).users == map["a" := User(100, 60)]
    ensures Purge(STUCK, 2, NO_FAULTS).0.users == map["a" := User(100, 55)]
  {
    var fs := [NO_FAULTS.(info := true), NO_FAULTS];
    assert LiveRefs(STUCK, 0) == {};
    var t := Purge(STUCK, 2, fs[0]).0;
    assert t == STUCK.(users := map["a" := User(100, 55)]);
    assert LiveRefs(t, 0) == {};
    assert fs[1..] == [NO_FAULTS];
    assert Attempts(t, 2, [NO_FAULTS]) == Attempts(Purge(t, 2, NO_FAULTS).0, 2, []);
  }
}
