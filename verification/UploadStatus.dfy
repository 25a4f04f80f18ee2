/** The status of an upload whose chunks are sent once each: when completed is final, and when a request
    that comes late still overwrites it. */
module UploadStatus {
  import opened Basics
  import opened Chunks
  import opened UploadProtocol
  import opened UploadRace
  import opened UploadOnce
  import opened Upload
  import opened UploadBursts

  /** The request will not write the status any more. */
  predicate Settled(pc: Pc, total: int) {
    pc.Done? || pc.Releasing? || (pc.Deciding? && pc.n < total)
  }

  lemma ActSettled(q: Request, s: Slot, pc: Pc, f: Fault)
    requires Settled(pc, q.total)
    ensures Settled(Act(q, s, pc, f).1, q.total) && Act(q, s, pc, f).0.status == s.status
  {
  }

  /** Once every request is settled, no continuation, failing or not, changes the status. */
  lemma {:induction false} SettledKeepStatus(reqs: Requests, s: System, more: seq<Turn>, p: Pid)
    requires WellTyped(reqs, s) && p in s.slots
    requires forall r | Mine(reqs, p, r) :: Settled(s.pcs[r], reqs[r].total)
    ensures Run(reqs, s, more).slots[p].status == s.slots[p].status
    decreases |more|
  {
    if more != [] {
      if Mine(reqs, p, more[0].rid) {
        ActSettled(reqs[more[0].rid], s.slots[p], s.pcs[more[0].rid], more[0].fault);
      }
      hide Act, Settled;
      SettledKeepStatus(reqs, Step(reqs, s, more[0]), more[1..], p);
    }
  }

  // ----- how an unsettled request overwrites the status -----

  /** A request that is still counting gets to store its progress. */
  lemma {:induction false} CountsThenNotes(q: Request, s: Slot, i: int, n: int) returns (m: int)
    requires 0 <= i <= q.total
    ensures Reaches(q, NO_FAULTS, (s, Counting(i, n)), (s.(status := Uploading), Deciding(m)))
    decreases q.total - i
  {
    if i < q.total {
      m := CountsThenNotes(q, s, i + 1, if OnDisk(s.temp, i) then n + 1 else n);
    } else {
      m := n;
      Notes(q, s, n);
    }
    StepThen(q, NO_FAULTS, (s, Counting(i, n)), (s.(status := Uploading), Deciding(m)));
  }

  lemma Notes(q: Request, s: Slot, n: int)
    ensures Reaches(q, NO_FAULTS, (s, Noting(n)), (s.(status := Uploading), Deciding(n)))
  {
    Stay(q, NO_FAULTS, (s.(status := Uploading), Deciding(n)));
    StepThen(q, NO_FAULTS, (s, Noting(n)), (s.(status := Uploading), Deciding(n)));
  }

  /** The holder of the lock that has copied nothing yet, or has failed. */
  predicate Hopeless(pc: Pc) {
    pc.Locked? || (pc.Merging? && pc.i == 0) || pc.Failing?
  }

  /** Without chunks on disk such a holder marks the upload failed. */
  lemma HolderFails(q: Request, s: Slot, pc: Pc) returns (why: Failure)
    requires Hopeless(pc) && s.temp.None? && q.total >= 1
    ensures Reaches(q, NO_FAULTS, (s, pc), (s.(status := Failed), Releasing(Error(why))))
  {
    why := if pc.Failing? then pc.why else OpenFailed(0);
    var done := (s.(status := Failed), Releasing(Error(why)));
    Stay(q, NO_FAULTS, done);
    StepThen(q, NO_FAULTS, (s, Failing(why)), done);
    if !pc.Failing? {
      StepThen(q, NO_FAULTS, (s, if pc.Merging? then pc else Merging(0, [])), done);
      if pc.Locked? {
        StepThen(q, NO_FAULTS, (s, Locked), done);
      }
    }
  }

  lemma BurstFrom(reqs: Requests, s: System, r: Rid, b: (Slot, Pc)) returns (more: seq<Turn>)
    requires WellTyped(reqs, s) && r in reqs
    requires Reaches(reqs[r], NO_FAULTS, (s.slots[reqs[r].pid], s.pcs[r]), b)
    ensures FaultFree(more) && Run(reqs, s, more).slots[reqs[r].pid] == b.0
  {
    hide Reaches;
    assert Run(reqs, s, []) == s;
    more := Burst(reqs, s, r, b, [], s);
  }

  /** The system after the winner is done: its rows are in place and nothing is left on disk. */
  ghost predicate Over(reqs: Requests, s: System, p: Pid, total: nat, h: Rid)
    requires WellTyped(reqs, s)
  {
    && p in s.slots && Mine(reqs, p, h) && s.pcs[h] == Done(Complete) && s.slots[p].temp.None?
    && forall r | Mine(reqs, p, r) && r != h :: Lost(s.pcs[r], total) && reqs[r].total == total >= 1
  }

  lemma {:induction false} UnsettledOverwrites(reqs: Requests, s: System, p: Pid, total: nat, h: Rid, r: Rid) returns (more: seq<Turn>)
    requires WellTyped(reqs, s) && Exclusive(reqs, s) && Over(reqs, s, p, total, h)
    requires Mine(reqs, p, r) && !Settled(s.pcs[r], total)
    ensures FaultFree(more) && Run(reqs, s, more).slots[p].status != Completed
  {
    var q, slot, pc := reqs[r], s.slots[p], s.pcs[r];
    hide Run, Reaches, Exclusive;
    if pc.Counting? {
      var m := CountsThenNotes(q, slot, pc.i, pc.n);
      more := BurstFrom(reqs, s, r, (slot.(status := Uploading), Deciding(m)));
    } else if pc.Noting? {
      Notes(q, slot, pc.n);
      more := BurstFrom(reqs, s, r, (slot.(status := Uploading), Deciding(pc.n)));
    } else if pc.Deciding? {
      more := DeciderOverwrites(reqs, s, p, total, h, r);
    } else {
      var why := HolderFails(q, slot, pc);
      more := BurstFrom(reqs, s, r, (slot.(status := Failed), Releasing(Error(why))));
    }
  }

  /** A request that has counted every chunk takes the lock as soon as it is free. */
  lemma DeciderOverwrites(reqs: Requests, s: System, p: Pid, total: nat, h: Rid, r: Rid) returns (more: seq<Turn>)
    requires WellTyped(reqs, s) && Exclusive(reqs, s) && Over(reqs, s, p, total, h)
    requires Mine(reqs, p, r) && s.pcs[r] == Deciding(total)
    ensures FaultFree(more) && Run(reqs, s, more).slots[p].status != Completed
  {
    var slot := s.slots[p];
    if slot.locked {
      var r' :| HoldsIn(reqs, s, r', p);
      assert Mine(reqs, p, r') && r' != h && Lost(s.pcs[r'], total);
      if s.pcs[r'].Releasing? {
        var t := Turn(r', Fine);
        var s' := Step(reqs, s, t);
        assert s'.slots[p] == slot.(locked := false) && s'.pcs[r] == Deciding(total);
        more := FreeDeciderOverwrites(reqs, s', p, total, r);
        assert ([t] + more)[1..] == more;
        more := [t] + more;
      } else {
        hide Run, Reaches;
        var why := HolderFails(reqs[r'], slot, s.pcs[r']);
        more := BurstFrom(reqs, s, r', (slot.(status := Failed), Releasing(Error(why))));
      }
    } else {
      more := FreeDeciderOverwrites(reqs, s, p, total, r);
    }
  }

  lemma FreeDeciderOverwrites(reqs: Requests, s: System, p: Pid, total: nat, r: Rid) returns (more: seq<Turn>)
    requires WellTyped(reqs, s) && p in s.slots && Mine(reqs, p, r) && reqs[r].total == total >= 1
    requires s.pcs[r] == Deciding(total) && !s.slots[p].locked && s.slots[p].temp.None?
    ensures FaultFree(more) && Run(reqs, s, more).slots[p].status != Completed
  {
    var locked := s.slots[p].(locked := true);
    var why := HolderFails(reqs[r], locked, Locked);
    var done := (locked.(status := Failed), Releasing(Error(why)));
    StepThen(reqs[r], NO_FAULTS, (s.slots[p], Deciding(total)), done);
    hide Run, Reaches;
    more := BurstFrom(reqs, s, r, done);
  }

  // ----- the exact condition -----

  lemma WinnerIsOver(reqs: Requests, t: System, p: Pid, content: ChunkFiles, total: nat, last: Option<Rid>, h: Rid)
    requires WellTyped(reqs, t) && SendsEachOnce(reqs, p, content, total) && HasAll(content, total)
    requires Invariant(reqs, t, p, content, total, last) && Mine(reqs, p, h) && t.pcs[h] == Done(Complete)
    ensures Over(reqs, t, p, total, h)
  {
    assert last.Some? && last.value == h;
  }

  /** The requests send each chunk once and nothing fails; the winner has replied and the status is
      completed. It stays completed in every failure-free continuation if and only if each other request
      is done, releasing the lock, or about to stop because it counted too few chunks. In that case
      not even failures change it. */
  lemma {:induction false} CompletedIsFinalExactly(reqs: Requests, s: System, ts: seq<Turn>, p: Pid, content: ChunkFiles, total: nat, h: Rid)
    requires Fresh(reqs, s) && SendsEachOnce(reqs, p, content, total) && Untouched(s, p) && FaultFree(ts)
    requires var t := Run(reqs, s, ts);
             Mine(reqs, p, h) && t.pcs[h] == Done(Complete) && t.slots[p].status == Completed
    ensures var t := Run(reqs, s, ts);
            (forall more :: FaultFree(more) ==> Run(reqs, t, more).slots[p].status == Completed)
            <==> forall r | Mine(reqs, p, r) && r != h :: Settled(t.pcs[r], total)
    ensures var t := Run(reqs, s, ts);
            (forall r | Mine(reqs, p, r) && r != h :: Settled(t.pcs[r], total))
            ==> forall more :: Run(reqs, t, more).slots[p].status == Completed
  {
    var t := Run(reqs, s, ts);
    FreshIsExclusive(reqs, s);
    StartIsBefore(reqs, s, p, content, total);
    var last := RunKeepsInvariant(reqs, s, ts, p, content, total, None);
    WinnerIsOver(reqs, t, p, content, total, last, h);
    MergeIsExclusive(reqs, s, ts);
    hide Run, Invariant, Exclusive, FaultFree;
    if r :| Mine(reqs, p, r) && r != h && !Settled(t.pcs[r], total) {
      var more := UnsettledOverwrites(reqs, t, p, total, h, r);
    } else {
      forall more ensures Run(reqs, t, more).slots[p].status == Completed {
        SettledKeepStatus(reqs, t, more, p);
      }
    }
  }
}
