/** How many UserFiles one upload can create: a merge uses up the chunks on disk, so no more than there
    are requests to bring any one of them. */
module UploadBound {
  import opened Basics
  import opened Chunks
  import opened UploadProtocol
  import opened UploadRace

  predicate SweptWhy(why: Failure) {
    why.InfoFailed? || why.LinkFailed?
  }

  predicate SweptReply(reply: Reply) {
    reply.Complete? || (reply.Error? && SweptWhy(reply.why))
  }

  /** The request has copied all chunks and gone past removing the temp directory. */
  predicate PastSweep(pc: Pc) {
    || pc.Saving? || pc.Linking? || pc.Finishing? || pc.Cleaning?
    || (pc.Failing? && SweptWhy(pc.why))
    || ((pc.Releasing? || pc.Done?) && SweptReply(pc.reply))
  }

  /** The request has had its turn at saving its chunk. */
  predicate PastSave(pc: Pc) {
    !Early(pc) && pc != Failing(MkdirFailed) && !((pc.Releasing? || pc.Done?) && TurnedAway(pc.reply))
  }

  predicate TurnedAway(reply: Reply) {
    reply.Expired? || reply == Error(MkdirFailed)
  }

  ghost function Sweepers(reqs: Requests, s: System, p: Pid): set<Rid>
    requires WellTyped(reqs, s)
  {
    set r | r in reqs && Mine(reqs, p, r) && PastSweep(s.pcs[r])
  }

  ghost function Savers(reqs: Requests, s: System, p: Pid, i: int): set<Rid>
    requires WellTyped(reqs, s)
  {
    set r | r in reqs && Sends(reqs, p, r, i) && PastSave(s.pcs[r])
  }

  ghost function Senders(reqs: Requests, p: Pid, i: int): set<Rid> {
    set r | r in reqs && Sends(reqs, p, r, i)
  }

  /** Chunk `i` has been brought at least once for every sweep, and once more when it is there. A request
      that has copied chunk `i` still finds it. */
  ghost predicate Tight(reqs: Requests, s: System, p: Pid, i: int)
    requires WellTyped(reqs, s)
  {
    && p in s.slots
    && |Sweepers(reqs, s, p)| + (if OnDisk(s.slots[p].temp, i) then 1 else 0) <= |Savers(reqs, s, p, i)|
    && forall r | Mine(reqs, p, r) && CopiedPast(s.pcs[r], i) :: OnDisk(s.slots[p].temp, i)
  }

  predicate CopiedPast(pc: Pc, i: int) {
    pc.Merging? && pc.i > i
  }

  /** Only a sweep takes chunk `i` away, and only its own request brings it. */
  lemma ActTight(q: Request, s: Slot, pc: Pc, f: Fault, i: int)
    requires 0 <= i < q.total && (pc.Merging? && pc.i >= q.total ==> f.Fine?)
    ensures var (s', pc') := Act(q, s, pc, f);
            && (PastSave(pc) ==> PastSave(pc')) && (PastSweep(pc) ==> PastSweep(pc'))
            && (if PastSweep(pc') && !PastSweep(pc) then CopiedPast(pc, i) && !OnDisk(s'.temp, i) && !CopiedPast(pc', i)
                else OnDisk(s.temp, i) ==> OnDisk(s'.temp, i))
            && (OnDisk(s'.temp, i) && !OnDisk(s.temp, i) ==> q.index == i && PastSave(pc') && !PastSave(pc) && !PastSweep(pc'))
            && (CopiedPast(pc', i) ==> CopiedPast(pc, i) || OnDisk(s.temp, i))
  {
  }

  /** No turn of the run fails to remove the temp directory. */
  ghost predicate SweepsSucceed(reqs: Requests, s: System, ts: seq<Turn>)
    requires WellTyped(reqs, s)
    decreases |ts|
  {
    ts == [] || (SweepSucceeds(reqs, s, ts[0]) && SweepsSucceed(reqs, Step(reqs, s, ts[0]), ts[1..]))
  }

  predicate SweepSucceeds(reqs: Requests, s: System, t: Turn)
    requires WellTyped(reqs, s)
  {
    t.rid in reqs && s.pcs[t.rid].Merging? && s.pcs[t.rid].i >= reqs[t.rid].total ==> t.fault.Fine?
  }

  lemma SubsetSize<T>(a: set<T>, b: set<T>)
    requires a <= b
    ensures |a| <= |b|
  {
    assert b == a + (b - a);
  }

  /** The sets of requests change by the one that moves, at most. */
  lemma StepSets(reqs: Requests, s: System, t: Turn, p: Pid, i: int)
    requires WellTyped(reqs, s) && Mine(reqs, p, t.rid) && 0 <= i < reqs[t.rid].total && SweepSucceeds(reqs, s, t)
    ensures var s', r := Step(reqs, s, t), t.rid;
            && Sweepers(reqs, s', p) == Sweepers(reqs, s, p) + (if PastSweep(s'.pcs[r]) then {r} else {})
            && Savers(reqs, s', p, i) == Savers(reqs, s, p, i) + (if Sends(reqs, p, r, i) && PastSave(s'.pcs[r]) then {r} else {})
  {
    ActTight(reqs[t.rid], s.slots[p], s.pcs[t.rid], t.fault, i);
    hide Act, PastSweep, PastSave, CopiedPast;
    var s', r := Step(reqs, s, t), t.rid;
    forall r' ensures r' in Sweepers(reqs, s', p) <==> r' in Sweepers(reqs, s, p) || (r' == r && PastSweep(s'.pcs[r])) {
    }
    forall r' ensures r' in Savers(reqs, s', p, i)
                      <==> r' in Savers(reqs, s, p, i) || (r' == r && Sends(reqs, p, r, i) && PastSave(s'.pcs[r])) {
    }
  }

  lemma StepKeepsCount(reqs: Requests, s: System, t: Turn, p: Pid, i: int)
    requires WellTyped(reqs, s) && Tight(reqs, s, p, i) && SweepSucceeds(reqs, s, t)
    requires Mine(reqs, p, t.rid) && 0 <= i < reqs[t.rid].total
    ensures var s' := Step(reqs, s, t);
            |Sweepers(reqs, s', p)| + (if OnDisk(s'.slots[p].temp, i) then 1 else 0) <= |Savers(reqs, s', p, i)|
  {
    var s', r := Step(reqs, s, t), t.rid;
    StepSets(reqs, s, t, p, i);
    ActTight(reqs[r], s.slots[p], s.pcs[r], t.fault, i);
    OnlyIfPast(reqs, s, p, i, r);
    NewSize(Sweepers(reqs, s, p), r, Sweepers(reqs, s', p));
    NewSize(Savers(reqs, s, p, i), r, Savers(reqs, s', p, i));
    hide Act, PastSweep, PastSave, Sweepers, Savers;
    assert CopiedPast(s.pcs[r], i) ==> OnDisk(s.slots[p].temp, i);
  }

  lemma StepKeepsCopied(reqs: Requests, s: System, t: Turn, p: Pid, i: int)
    requires WellTyped(reqs, s) && Exclusive(reqs, s) && Tight(reqs, s, p, i) && SweepSucceeds(reqs, s, t)
    requires Mine(reqs, p, t.rid) && 0 <= i < reqs[t.rid].total
    ensures var s' := Step(reqs, s, t); forall r | Mine(reqs, p, r) && CopiedPast(s'.pcs[r], i) :: OnDisk(s'.slots[p].temp, i)
  {
    var s', r := Step(reqs, s, t), t.rid;
    ActTight(reqs[r], s.slots[p], s.pcs[r], t.fault, i);
    assert HoldsIn(reqs, s, r, p) <==> Holds(s.pcs[r]);
    hide Act, PastSweep, PastSave, Sweepers, Savers;
    forall r' | Mine(reqs, p, r') && CopiedPast(s'.pcs[r'], i) ensures OnDisk(s'.slots[p].temp, i) {
      if r' != r {
        assert HoldsIn(reqs, s, r', p);
      }
    }
  }

  lemma StepKeepsTight(reqs: Requests, s: System, t: Turn, p: Pid, i: int)
    requires WellTyped(reqs, s) && Exclusive(reqs, s) && Tight(reqs, s, p, i) && SweepSucceeds(reqs, s, t)
    requires i >= 0 && forall r | Mine(reqs, p, r) :: i < reqs[r].total
    ensures Tight(reqs, Step(reqs, s, t), p, i)
  {
    if Mine(reqs, p, t.rid) {
      StepKeepsCount(reqs, s, t, p, i);
      StepKeepsCopied(reqs, s, t, p, i);
    } else {
      var s' := Step(reqs, s, t);
      hide Act;
      assert s'.slots[p] == s.slots[p];
      assert forall r' | Mine(reqs, p, r') :: s'.pcs[r'] == s.pcs[r'];
      assert Sweepers(reqs, s', p) == Sweepers(reqs, s, p);
      assert Savers(reqs, s', p, i) == Savers(reqs, s, p, i);
    }
  }

  lemma NewSize(a: set<Rid>, r: Rid, b: set<Rid>)
    ensures b == a + {r} ==> |b| == (if r in a then |a| else |a| + 1)
  {
    if b == a + {r} && r in a {
      assert b == a;
    }
  }

  lemma OnlyIfPast(reqs: Requests, s: System, p: Pid, i: int, r: Rid)
    requires WellTyped(reqs, s) && Mine(reqs, p, r)
    ensures r in Sweepers(reqs, s, p) <==> PastSweep(s.pcs[r])
    ensures r in Savers(reqs, s, p, i) <==> reqs[r].index == i && PastSave(s.pcs[r])
  {
  }

  lemma {:induction false} RunKeepsTight(reqs: Requests, s: System, ts: seq<Turn>, p: Pid, i: int)
    requires WellTyped(reqs, s) && Exclusive(reqs, s) && Tight(reqs, s, p, i) && SweepsSucceed(reqs, s, ts)
    requires i >= 0 && forall r | Mine(reqs, p, r) :: i < reqs[r].total
    ensures Tight(reqs, Run(reqs, s, ts), p, i)
    decreases |ts|
  {
    hide Step, Tight, Exclusive, SweepSucceeds;
    if ts != [] {
      StepKeepsTight(reqs, s, ts[0], p, i);
      StepKeepsExclusive(reqs, s, ts[0]);
      RunKeepsTight(reqs, Step(reqs, s, ts[0]), ts[1..], p, i);
    }
  }

  lemma FreshIsTight(reqs: Requests, s: System, p: Pid, i: int)
    requires Fresh(reqs, s) && Untouched(s, p)
    ensures Tight(reqs, s, p, i)
  {
    assert Sweepers(reqs, s, p) == {};
  }

  lemma CompletersHaveSwept(reqs: Requests, s: System, p: Pid, i: int)
    requires WellTyped(reqs, s)
    ensures |Completers(reqs, s, p)| <= |Sweepers(reqs, s, p)| && |Savers(reqs, s, p, i)| <= |Senders(reqs, p, i)|
  {
    SubsetSize(Completers(reqs, s, p), Sweepers(reqs, s, p));
    SubsetSize(Savers(reqs, s, p, i), Senders(reqs, p, i));
  }

  /** In every run, whatever the requests send and whatever fails but the removal of the temp directory, an
      upload creates no more UserFiles than there are requests that send its chunk `i`, for each `i`
      that all its requests count. */
  lemma {:induction false} NoMoreFilesThanSenders(reqs: Requests, s: System, ts: seq<Turn>, p: Pid, i: int)
    requires Fresh(reqs, s) && Untouched(s, p) && SweepsSucceed(reqs, s, ts)
    requires i >= 0 && forall r | Mine(reqs, p, r) :: i < reqs[r].total
    ensures Run(reqs, s, ts).slots[p].links <= |Senders(reqs, p, i)|
  {
    FreshIsTight(reqs, s, p, i);
    FreshIsExclusive(reqs, s);
    assert Completers(reqs, s, p) == {};
    hide Tight, Step, Completers, Sweepers, Savers, Senders, Exclusive, Fresh;
    RunKeepsTight(reqs, s, ts, p, i);
    RunCounts(reqs, s, ts, p);
    CompletersHaveSwept(reqs, Run(reqs, s, ts), p, i);
    TightBound(reqs, Run(reqs, s, ts), p, i);
  }

  lemma TightBound(reqs: Requests, s: System, p: Pid, i: int)
    requires WellTyped(reqs, s) && Tight(reqs, s, p, i)
    ensures |Sweepers(reqs, s, p)| <= |Savers(reqs, s, p, i)|
  {
  }

  lemma {:induction false} FaultFreeSweeps(reqs: Requests, s: System, ts: seq<Turn>)
    requires WellTyped(reqs, s) && FaultFree(ts)
    ensures SweepsSucceed(reqs, s, ts)
    decreases |ts|
  {
    if ts != [] {
      FaultFreeSweeps(reqs, Step(reqs, s, ts[0]), ts[1..]);
    }
  }
}
