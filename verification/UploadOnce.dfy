/** Concurrent requests that between them send every chunk of an upload once: in every interleaving
    exactly one of them completes, and what it stores is the chunks in order. */
module UploadOnce {
  import opened Basics
  import opened Chunks
  import opened UploadProtocol
  import opened UploadRace

  /** The requests for `p` send each of the `total` chunks of `content` exactly once. */
  ghost predicate SendsEachOnce(reqs: Requests, p: Pid, content: ChunkFiles, total: int) {
    && SendsAll(reqs, p, content, total)
    && forall r, r' | Mine(reqs, p, r) && Mine(reqs, p, r') :: reqs[r].index == reqs[r'].index ==> r == r'
  }

  // ----- before anyone has won the merge lock -----

  /** A chunk whose request has yet to save it is not on disk. */
  ghost predicate Unsent(reqs: Requests, s: System, p: Pid)
    requires WellTyped(reqs, s) && p in s.slots
  {
    forall r | Mine(reqs, p, r) :: Early(s.pcs[r]) ==> !OnDisk(s.slots[p].temp, reqs[r].index)
  }

  // ----- after `h` has won it -----

  /** The state of the first winner and of what it stores. */
  predicate Won(s: Slot, pc: Pc, content: ChunkFiles, total: nat)
    requires HasAll(content, total)
  {
    match pc
    case Locked => s.temp == Some(content) && s.infos == [] && s.links == 0
    case Merging(i, out) =>
      0 <= i <= total && s.temp == Some(content) && s.infos == [] && s.links == 0 && out == Join(content, i)
    case Saving(out) => s.temp == None && s.infos == [] && s.links == 0 && out == Join(content, total)
    case Linking => s.temp == None && s.infos == [Stored(s.fileSize, Join(content, total))] && s.links == 0
    case Finishing => Kept(s, content, total)
    case Cleaning => Kept(s, content, total)
    case Releasing(reply) => reply.Complete? && Kept(s, content, total)
    case Done(reply) => reply.Complete? && Kept(s, content, total)
    case _ => false
  }

  predicate Kept(s: Slot, content: ChunkFiles, total: nat)
    requires HasAll(content, total)
  {
    s.temp == None && s.infos == [Stored(s.fileSize, Join(content, total))] && s.links == 1
  }

  /** Where the other requests can be: those that take the lock later find no first chunk to open. */
  predicate Lost(pc: Pc, total: int) {
    match pc
    case Counting(i, n) => 0 <= n <= i <= total
    case Noting(n) => 0 <= n <= total
    case Deciding(n) => 0 <= n <= total
    case Locked => true
    case Merging(i, _) => i == 0
    case Failing(why) => why == OpenFailed(0)
    case Releasing(reply) => reply == Error(OpenFailed(0))
    case Done(reply) => LosingReply(reply, total)
    case _ => false
  }

  predicate LosingReply(reply: Reply, total: int) {
    (reply.Partial? && 0 <= reply.uploaded <= total && reply.total == total) || reply == Error(OpenFailed(0))
  }

  ghost predicate Invariant(reqs: Requests, s: System, p: Pid, content: ChunkFiles, total: nat, first: Option<Rid>)
    requires WellTyped(reqs, s) && HasAll(content, total)
  {
    && p in s.slots
    && match first
       case None => Open(reqs, s, p, content, total) && Unsent(reqs, s, p)
       case Some(h) =>
         && Mine(reqs, p, h) && Won(s.slots[p], s.pcs[h], content, total)
         && (forall r | Mine(reqs, p, r) && r != h :: Lost(s.pcs[r], total))
  }

  // ----- one request's step -----

  lemma ActUnsent(q: Request, s: Slot, pc: Pc)
    requires Early(pc) ==> !OnDisk(s.temp, q.index)
    ensures var (s', pc') := Act(q, s, pc, Fine); Early(pc') ==> !OnDisk(s'.temp, q.index)
  {
  }

  lemma ActWon(q: Request, s: Slot, pc: Pc, content: ChunkFiles, total: nat)
    requires HasAll(content, total) && Won(s, pc, content, total) && q.total == total
    ensures var (s', pc') := Act(q, s, pc, Fine); Won(s', pc', content, total)
  {
  }

  /** After the winner: the step changes nothing that the winner stored or still needs. */
  lemma ActLost(q: Request, s: Slot, pc: Pc, total: nat)
    requires Lost(pc, total) && q.total == total && total >= 1
    requires Holds(pc) ==> s.temp == None
    ensures var (s', pc') := Act(q, s, pc, Fine);
            && Lost(pc', total)
            && s'.temp == s.temp && s'.infos == s.infos && s'.links == s.links && s'.fileSize == s.fileSize
  {
  }

  // ----- the step of the system -----

  lemma StepBefore(reqs: Requests, s: System, t: Turn, p: Pid, content: ChunkFiles, total: nat) returns (first: Option<Rid>)
    requires WellTyped(reqs, s) && SendsEachOnce(reqs, p, content, total) && HasAll(content, total)
    requires Invariant(reqs, s, p, content, total, None) && Mine(reqs, p, t.rid) && t.fault.Fine?
    ensures Invariant(reqs, Step(reqs, s, t), p, content, total, first)
  {
    var s', r, slot := Step(reqs, s, t), t.rid, s.slots[p];
    StepOpen(reqs, s, t, p, content, total);
    if s.pcs[r].Deciding? && s.pcs[r].n == total {
      first := Some(r);
      hide Act;
      forall r' | Mine(reqs, p, r') && r' != r ensures Lost(s'.pcs[r'], total) {
        assert Before(reqs[r'], slot, s.pcs[r'], total) && OnDisk(slot.temp, reqs[r'].index);
      }
    } else {
      first := None;
      ActUnsent(reqs[r], slot, s.pcs[r]);
      ActBefore(reqs[r], slot, s.pcs[r], content, total);
      hide Act, Open, Early;
    }
  }

  lemma {:induction false} StepAfter(reqs: Requests, s: System, t: Turn, p: Pid, content: ChunkFiles, total: nat, h: Rid)
    requires WellTyped(reqs, s) && Exclusive(reqs, s) && SendsEachOnce(reqs, p, content, total) && HasAll(content, total)
    requires Invariant(reqs, s, p, content, total, Some(h)) && Mine(reqs, p, t.rid) && t.fault.Fine?
    ensures Invariant(reqs, Step(reqs, s, t), p, content, total, Some(h))
  {
    var r, slot := t.rid, s.slots[p];
    if r == h {
      ActWon(reqs[r], slot, s.pcs[r], content, total);
    } else {
      assert HoldsIn(reqs, s, r, p) <==> Holds(s.pcs[r]);
      assert HoldsIn(reqs, s, h, p) <==> Holds(s.pcs[h]);
      ActLost(reqs[r], slot, s.pcs[r], total);
      hide Act;
      var slot' := Step(reqs, s, t).slots[p];
      assert Won(slot', s.pcs[h], content, total);
    }
  }

  lemma {:induction false} RunKeepsInvariant(reqs: Requests, s: System, ts: seq<Turn>, p: Pid, content: ChunkFiles, total: nat,
                                             first: Option<Rid>) returns (last: Option<Rid>)
    requires WellTyped(reqs, s) && Exclusive(reqs, s) && SendsEachOnce(reqs, p, content, total) && HasAll(content, total)
    requires Invariant(reqs, s, p, content, total, first)
    requires FaultFree(ts)
    ensures Invariant(reqs, Run(reqs, s, ts), p, content, total, last)
    decreases |ts|
  {
    if ts == [] {
      last := first;
    } else {
      var s', next := Step(reqs, s, ts[0]), first;
      StepKeepsExclusive(reqs, s, ts[0]);
      if Mine(reqs, p, ts[0].rid) {
        if first.None? {
          next := StepBefore(reqs, s, ts[0], p, content, total);
        } else {
          StepAfter(reqs, s, ts[0], p, content, total, first.value);
        }
      } else {
        assert s'.slots[p] == s.slots[p];
        assert forall r | Mine(reqs, p, r) :: s'.pcs[r] == s.pcs[r];
      }
      last := RunKeepsInvariant(reqs, s', ts[1..], p, content, total, next);
    }
  }

  lemma StartIsBefore(reqs: Requests, s: System, p: Pid, content: ChunkFiles, total: nat)
    requires Fresh(reqs, s) && SendsEachOnce(reqs, p, content, total) && HasAll(content, total) && Untouched(s, p)
    ensures Invariant(reqs, s, p, content, total, None)
  {
    StartIsOpen(reqs, s, p, content, total);
  }

  /** When nobody is left in the race, somebody has won it. */
  lemma FinishedIsWon(reqs: Requests, t: System, p: Pid, content: ChunkFiles, total: nat, last: Option<Rid>)
    requires WellTyped(reqs, t) && HasAll(content, total) && Invariant(reqs, t, p, content, total, last)
    requires AllDone(reqs, t, p)
    ensures last.Some? && Mine(reqs, p, last.value) && t.pcs[last.value] == Done(Complete)
    ensures forall r | Mine(reqs, p, r) && r != last.value :: LosingReply(t.pcs[r].reply, total)
    ensures Kept(t.slots[p], content, total)
  {
  }

  /** When the requests send each chunk once and nothing fails, then in every interleaving in which they
      all finish: exactly one replies Complete; one FileInfo and one UserFile exist; the stored bytes are
      the chunks in index order, with the size of the precheck; and every other request was told that the
      upload is partial or, having taken the lock too late, failed to open chunk 0. */
  lemma {:induction false} ExactlyOneCompletes(reqs: Requests, s: System, ts: seq<Turn>, p: Pid, content: ChunkFiles, total: nat) returns (winner: Rid)
    requires Fresh(reqs, s) && SendsEachOnce(reqs, p, content, total)
    requires Untouched(s, p)
    requires FaultFree(ts)
    requires AllDone(reqs, Run(reqs, s, ts), p)
    ensures var t := Run(reqs, s, ts);
            && HasAll(content, total)
            && Mine(reqs, p, winner) && t.pcs[winner] == Done(Complete)
            && (forall r | Mine(reqs, p, r) && r != winner :: LosingReply(t.pcs[r].reply, total))
            && t.slots[p].infos == [Stored(s.slots[p].fileSize, Join(content, total))]
            && t.slots[p].links == 1
  {
    hide Act, Step, Run, Invariant, Exclusive, Join;
    FileSizeFixed(reqs, s, ts, p);
    FreshIsExclusive(reqs, s);
    StartIsBefore(reqs, s, p, content, total);
    var last := RunKeepsInvariant(reqs, s, ts, p, content, total, None);
    FinishedIsWon(reqs, Run(reqs, s, ts), p, content, total, last);
    winner := last.value;
  }

  /** Together with the cutting of files: uploading the chunks of any content concurrently stores that content. */
  lemma {:induction false} ConcurrentUploadStoresFile(reqs: Requests, s: System, ts: seq<Turn>, p: Pid, file: Bytes)
    requires 1 <= |file| && |file| + CHUNK_SIZE - 1 <= MAX_INT64 && LeastCover(|file|, TotalChunks(|file|))
    requires Fresh(reqs, s) && SendsEachOnce(reqs, p, Cut(file, TotalChunks(|file|)), TotalChunks(|file|))
    requires Untouched(s, p)
    requires FaultFree(ts)
    requires AllDone(reqs, Run(reqs, s, ts), p)
    ensures var t := Run(reqs, s, ts); t.slots[p].infos == [Stored(s.slots[p].fileSize, file)] && t.slots[p].links == 1
  {
    JoinUndoesCut(file);
    var winner := ExactlyOneCompletes(reqs, s, ts, p, Cut(file, TotalChunks(|file|)), TotalChunks(|file|));
  }
}
