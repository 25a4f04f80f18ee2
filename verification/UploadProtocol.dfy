/** Chunked upload as an interleaved protocol: any number of requests, each taking one step of
    UploadChunk/handleChunk/mergeAndSave at a time, in any order, with any step failing. */
module UploadProtocol {
  import opened Basics
  import opened Chunks

  type Pid = string
  type Rid = nat

  datatype Request = Request(pid: Pid, index: int, total: int, data: Bytes)

  datatype Failure = MkdirFailed | SaveFailed | DestFailed | OpenFailed(index: int) | CopyFailed(index: int) | InfoFailed | LinkFailed

  datatype Reply = Partial(uploaded: int, total: int) | Complete | Expired | Error(why: Failure)

  /** Where a request is: each value names the action it takes next. */
  datatype Pc =
    | Arrived                            // read the cached precheck request
    | Admitted                           // make the temp directory
    | Prepared                           // save its chunk
    | Counting(i: int, n: int)           // look for chunk i
    | Noting(n: int)                     // store the progress
    | Deciding(n: int)                   // stop, or take the merge lock
    | Locked                             // create the destination file
    | Merging(i: int, out: Bytes)        // copy chunk i, or remove the temp directory
    | Saving(out: Bytes)                 // create the FileInfo
    | Linking                            // create the UserFile
    | Finishing                          // store status completed
    | Cleaning                           // drop the cached request
    | Failing(why: Failure)              // store status failed
    | Releasing(reply: Reply)            // release the merge lock
    | Done(reply: Reply)

  datatype Status = Pending | Uploading | Completed | Failed

  datatype Stored = Stored(size: int, content: Bytes)

  /** Everything kept under one precheck identifier. `fileSize` is that of the cached request; `infos`
      and `links` log the FileInfo and UserFile rows created for it. */
  datatype Slot = Slot(cached: bool, fileSize: int, temp: Option<ChunkFiles>, locked: bool, status: Status,
                       infos: seq<Stored>, links: nat)

  /** A step goes well, fails, or (saving a chunk) fails leaving part of the content on disk. */
  datatype Fault = Fine | Fails | Torn(left: Bytes)

  predicate OnDisk(temp: Option<ChunkFiles>, i: int) {
    temp.Some? && i in temp.value
  }

  function Act(q: Request, s: Slot, pc: Pc, f: Fault): (Slot, Pc) {
    match pc
    case Arrived => (s, if s.cached && f.Fine? then Admitted else Done(Expired))
    case Admitted =>
      if !f.Fine? then (s, Done(Error(MkdirFailed)))
      else (s.(temp := if s.temp.Some? then s.temp else Some(map[])), Prepared)
    case Prepared =>
      if s.temp.None? || f.Fails? then (s, Done(Error(SaveFailed)))
      else if f.Torn? then (s.(temp := Some(s.temp.value[q.index := f.left])), Done(Error(SaveFailed)))
      else (s.(temp := Some(s.temp.value[q.index := q.data])), Counting(0, 0))
    case Counting(i, n) =>
      if i < q.total then (s, Counting(i + 1, if OnDisk(s.temp, i) && f.Fine? then n + 1 else n)) else (s, Noting(n))
    case Noting(n) => (if f.Fine? then s.(status := Uploading) else s, Deciding(n))
    case Deciding(n) =>
      if n < q.total || s.locked then (s, Done(Partial(n, q.total))) else (s.(locked := true), Locked)
    case Locked => (s, if f.Fine? then Merging(0, []) else Failing(DestFailed))
    case Merging(i, out) =>
      if i < q.total then
        (s, if !OnDisk(s.temp, i) then Failing(OpenFailed(i))
            else if !f.Fine? then Failing(CopyFailed(i))
            else Merging(i + 1, out + s.temp.value[i]))
      else (if f.Fine? then s.(temp := None) else s, Saving(out))
    case Saving(out) =>
      if f.Fine? then (s.(infos := s.infos + [Stored(s.fileSize, out)]), Linking) else (s, Failing(InfoFailed))
    case Linking => if f.Fine? then (s.(links := s.links + 1), Finishing) else (s, Failing(LinkFailed))
    case Finishing => (if f.Fine? then s.(status := Completed) else s, Cleaning)
    case Cleaning => (if f.Fine? then s.(cached := false) else s, Releasing(Complete))
    case Failing(why) => (if f.Fine? then s.(status := Failed) else s, Releasing(Error(why)))
    case Releasing(reply) => (s.(locked := false), Done(reply))
    case Done(_) => (s, pc)
  }

  // ----- the whole system -----

  datatype System = System(slots: map<Pid, Slot>, pcs: map<Rid, Pc>)

  datatype Turn = Turn(rid: Rid, fault: Fault)

  type Requests = map<Rid, Request>

  predicate WellTyped(reqs: Requests, s: System) {
    s.pcs.Keys == reqs.Keys && forall r <- reqs :: reqs[r].pid in s.slots
  }

  function Step(reqs: Requests, s: System, t: Turn): (r: System)
    requires WellTyped(reqs, s)
    ensures WellTyped(reqs, r) && r.slots.Keys == s.slots.Keys
  {
    if t.rid !in reqs then s
    else
      var q := reqs[t.rid];
      var (slot, pc) := Act(q, s.slots[q.pid], s.pcs[t.rid], t.fault);
      System(s.slots[q.pid := slot], s.pcs[t.rid := pc])
  }

  function Run(reqs: Requests, s: System, ts: seq<Turn>): (r: System)
    requires WellTyped(reqs, s)
    ensures WellTyped(reqs, r) && r.slots.Keys == s.slots.Keys
    decreases |ts|
  {
    if ts == [] then s else Run(reqs, Step(reqs, s, ts[0]), ts[1..])
  }

  ghost predicate FaultFree(ts: seq<Turn>) {
    forall i | 0 <= i < |ts| :: ts[i].fault.Fine?
  }

  /** Nobody has started, and no merge lock is taken. */
  predicate Fresh(reqs: Requests, s: System) {
    && WellTyped(reqs, s)
    && (forall r <- s.pcs :: s.pcs[r].Arrived?)
    && (forall p <- s.slots :: !s.slots[p].locked)
  }

  // ----- mutual exclusion -----

  /** The request is between LoadOrStore and Delete on its merge lock. */
  predicate Holds(pc: Pc) {
    pc.Locked? || pc.Merging? || pc.Saving? || pc.Linking? || pc.Finishing? || pc.Cleaning? || pc.Failing? || pc.Releasing?
  }

  predicate HoldsIn(reqs: Requests, s: System, r: Rid, p: Pid)
    requires WellTyped(reqs, s)
  {
    r in reqs && reqs[r].pid == p && Holds(s.pcs[r])
  }

  /** A lock is taken exactly when some request holds it, and never by two. */
  ghost predicate Exclusive(reqs: Requests, s: System)
    requires WellTyped(reqs, s)
  {
    && (forall r, p :: HoldsIn(reqs, s, r, p) ==> s.slots[p].locked)
    && (forall p <- s.slots :: s.slots[p].locked ==> exists r :: HoldsIn(reqs, s, r, p))
    && (forall r, r', p :: HoldsIn(reqs, s, r, p) && HoldsIn(reqs, s, r', p) ==> r == r')
  }

  /** A step takes the lock only when it is free, and gives it up only by leaving the merge. */
  lemma ActMovesLock(q: Request, s: Slot, pc: Pc, f: Fault)
    ensures var (s', pc') := Act(q, s, pc, f);
            && (Holds(pc) ==> s'.locked == (s.locked && Holds(pc')))
            && (!Holds(pc) ==> s'.locked == (s.locked || Holds(pc')) && (Holds(pc') ==> !s.locked))
  {
  }

  lemma StepKeepsExclusive(reqs: Requests, s: System, t: Turn)
    requires WellTyped(reqs, s) && Exclusive(reqs, s)
    ensures Exclusive(reqs, Step(reqs, s, t))
  {
    if t.rid in reqs {
      var p := reqs[t.rid].pid;
      ActMovesLock(reqs[t.rid], s.slots[p], s.pcs[t.rid], t.fault);
      hide Act, Holds;
      var s' := Step(reqs, s, t);
      assert HoldsIn(reqs, s, t.rid, p) <==> Holds(s.pcs[t.rid]);
      forall r, p' ensures HoldsIn(reqs, s', r, p') <==> if r == t.rid then p' == p && Holds(s'.pcs[r]) else HoldsIn(reqs, s, r, p') {
      }
      forall p' | p' in s'.slots && s'.slots[p'].locked ensures exists r :: HoldsIn(reqs, s', r, p') {
        if p' == p && !s.slots[p].locked {
          assert HoldsIn(reqs, s', t.rid, p);
        } else {
          var r :| HoldsIn(reqs, s, r, p');
          assert HoldsIn(reqs, s', r, p');
        }
      }
    }
  }

  /** In every reachable state, re-sends and failures included, at most one request per precheck
      identifier is inside the merge. */
  lemma {:induction false} MergeIsExclusive(reqs: Requests, s: System, ts: seq<Turn>)
    requires WellTyped(reqs, s) && Exclusive(reqs, s)
    ensures Exclusive(reqs, Run(reqs, s, ts))
    decreases |ts|
  {
    if ts != [] {
      StepKeepsExclusive(reqs, s, ts[0]);
      MergeIsExclusive(reqs, Step(reqs, s, ts[0]), ts[1..]);
    }
  }

  lemma FreshIsExclusive(reqs: Requests, s: System)
    requires Fresh(reqs, s)
    ensures Exclusive(reqs, s)
  {
  }

  /** Only the request holding a lock releases it. */
  lemma OnlyHolderReleases(reqs: Requests, s: System, t: Turn, p: Pid)
    requires WellTyped(reqs, s) && Exclusive(reqs, s)
    requires p in s.slots && s.slots[p].locked && !Step(reqs, s, t).slots[p].locked
    ensures HoldsIn(reqs, s, t.rid, p)
    ensures forall r :: HoldsIn(reqs, s, r, p) ==> r == t.rid
  {
    assert HoldsIn(reqs, s, t.rid, p);
  }

  /** No step changes the size recorded by the precheck. */
  lemma StepFixesFileSize(reqs: Requests, s: System, t: Turn, p: Pid)
    requires WellTyped(reqs, s) && p in s.slots
    ensures Step(reqs, s, t).slots[p].fileSize == s.slots[p].fileSize
  {
  }

  lemma {:induction false} FileSizeFixed(reqs: Requests, s: System, ts: seq<Turn>, p: Pid)
    requires WellTyped(reqs, s) && p in s.slots
    ensures Run(reqs, s, ts).slots[p].fileSize == s.slots[p].fileSize
    decreases |ts|
  {
    if ts != [] {
      StepFixesFileSize(reqs, s, ts[0], p);
      hide Act, Step;
      FileSizeFixed(reqs, Step(reqs, s, ts[0]), ts[1..], p);
    }
  }

  lemma {:induction false} RunAppend(reqs: Requests, s: System, a: seq<Turn>, b: seq<Turn>)
    requires WellTyped(reqs, s)
    ensures Run(reqs, s, a + b) == Run(reqs, Run(reqs, s, a), b)
    decreases |a|
  {
    if a == [] {
      assert a + b == b;
    } else {
      assert (a + b)[1..] == a[1..] + b;
      RunAppend(reqs, Step(reqs, s, a[0]), a[1..], b);
    }
  }

  // ----- what was created, and who says so -----

  /** The request has created its UserFile, so it replies Complete or is about to. */
  predicate PastLink(pc: Pc) {
    pc.Finishing? || pc.Cleaning? || pc == Releasing(Complete) || pc == Done(Complete)
  }

  ghost function Completers(reqs: Requests, s: System, p: Pid): set<Rid>
    requires WellTyped(reqs, s)
  {
    set r | r in reqs && reqs[r].pid == p && PastLink(s.pcs[r])
  }

  lemma ActLinks(q: Request, s: Slot, pc: Pc, f: Fault)
    ensures var (s', pc') := Act(q, s, pc, f);
            && (PastLink(pc) ==> PastLink(pc'))
            && s'.links == s.links + (if PastLink(pc') && !PastLink(pc) then 1 else 0)
  {
  }

  lemma StepCounts(reqs: Requests, s: System, t: Turn, p: Pid)
    requires WellTyped(reqs, s) && p in s.slots && s.slots[p].links == |Completers(reqs, s, p)|
    ensures Step(reqs, s, t).slots[p].links == |Completers(reqs, Step(reqs, s, t), p)|
  {
    var s' := Step(reqs, s, t);
    if t.rid in reqs && reqs[t.rid].pid == p {
      ActLinks(reqs[t.rid], s.slots[p], s.pcs[t.rid], t.fault);
      hide Act, PastLink;
      var before, after := Completers(reqs, s, p), Completers(reqs, s', p);
      assert t.rid in before <==> PastLink(s.pcs[t.rid]);
      if PastLink(s'.pcs[t.rid]) {
        assert after == before + {t.rid};
      } else {
        assert after == before;
      }
    } else {
      assert Completers(reqs, s', p) == Completers(reqs, s, p);
    }
  }

  lemma {:induction false} RunCounts(reqs: Requests, s: System, ts: seq<Turn>, p: Pid)
    requires WellTyped(reqs, s) && p in s.slots && s.slots[p].links == |Completers(reqs, s, p)|
    ensures Run(reqs, s, ts).slots[p].links == |Completers(reqs, Run(reqs, s, ts), p)|
    decreases |ts|
  {
    hide Step, Completers;
    if ts != [] {
      StepCounts(reqs, s, ts[0], p);
      RunCounts(reqs, Step(reqs, s, ts[0]), ts[1..], p);
    }
  }

  /** In every interleaving, re-sends and failures included, in which all requests finish: the UserFiles
      created are as many as the requests that were told the upload is complete. */
  lemma {:induction false} OneFilePerCompletion(reqs: Requests, s: System, ts: seq<Turn>, p: Pid)
    requires Fresh(reqs, s) && p in s.slots && s.slots[p].links == 0
    requires forall r <- reqs :: reqs[r].pid == p ==> Run(reqs, s, ts).pcs[r].Done?
    ensures var t := Run(reqs, s, ts);
            t.slots[p].links == |set r | r in reqs && reqs[r].pid == p && t.pcs[r] == Done(Complete)|
  {
    var t := Run(reqs, s, ts);
    assert Completers(reqs, s, p) == {};
    RunCounts(reqs, s, ts, p);
    assert Completers(reqs, t, p) == set r | r in reqs && reqs[r].pid == p && t.pcs[r] == Done(Complete);
  }
}
