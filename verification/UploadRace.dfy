/** The first half of every failure-free upload: until one request wins the merge lock with all chunks on
    disk, some request is still on its way to winning it. Chunks may be sent any number of times. */
module UploadRace {
  import opened Basics
  import opened Chunks
  import opened UploadProtocol

  predicate Mine(reqs: Requests, p: Pid, r: Rid) {
    r in reqs && reqs[r].pid == p
  }

  predicate Sends(reqs: Requests, p: Pid, r: Rid, i: int) {
    Mine(reqs, p, r) && reqs[r].index == i
  }

  ghost predicate CoversRange(content: ChunkFiles, total: int) {
    forall i :: i in content <==> 0 <= i < total
  }

  /** The requests for `p` send chunks of `content` and nothing else. */
  ghost predicate SendsOnly(reqs: Requests, p: Pid, content: ChunkFiles, total: int) {
    && total >= 1 && CoversRange(content, total)
    && forall r | Mine(reqs, p, r) ::
         reqs[r].total == total && reqs[r].index in content && reqs[r].data == content[reqs[r].index]
  }

  /** They send each chunk at least once. */
  ghost predicate SendsAll(reqs: Requests, p: Pid, content: ChunkFiles, total: int) {
    SendsOnly(reqs, p, content, total) && forall i <- content :: exists r :: Sends(reqs, p, r, i)
  }

  /** Nothing has been sent or stored for `p`. */
  predicate Untouched(s: System, p: Pid) {
    p in s.slots && s.slots[p].cached && s.slots[p].temp.None? && s.slots[p].infos == [] && s.slots[p].links == 0
  }

  ghost predicate AllDone(reqs: Requests, s: System, p: Pid)
    requires WellTyped(reqs, s)
  {
    forall r | Mine(reqs, p, r) :: s.pcs[r].Done?
  }

  predicate Early(pc: Pc) {
    pc.Arrived? || pc.Admitted? || pc.Prepared?
  }

  predicate Full(temp: Option<ChunkFiles>, total: int) {
    forall i | 0 <= i < total :: OnDisk(temp, i)
  }

  predicate SlotBefore(s: Slot, content: ChunkFiles) {
    && s.cached && !s.locked && s.infos == [] && s.links == 0
    && (s.temp.Some? ==> forall i <- s.temp.value :: i in content && s.temp.value[i] == content[i])
  }

  predicate Before(q: Request, s: Slot, pc: Pc, total: int) {
    && (Early(pc) || OnDisk(s.temp, q.index))
    && match pc
       case Arrived => true
       case Admitted => true
       case Prepared => s.temp.Some?
       case Counting(i, n) => 0 <= n <= i <= total && (n == i ==> Full(s.temp, i))
       case Noting(n) => 0 <= n <= total && (n == total ==> Full(s.temp, total))
       case Deciding(n) => 0 <= n <= total && (n == total ==> Full(s.temp, total))
       case Done(reply) => reply.Partial? && 0 <= reply.uploaded < total && reply.total == total
       case _ => false
  }

  /** The request may still be the one that finds all chunks in place. */
  predicate InRace(s: Slot, pc: Pc, total: int) {
    || Early(pc)
    || (Full(s.temp, total)
        && ((pc.Counting? && pc.n == pc.i) || (pc.Noting? && pc.n == total) || (pc.Deciding? && pc.n == total)))
  }

  /** Nobody has won, and somebody still can. */
  ghost predicate Open(reqs: Requests, s: System, p: Pid, content: ChunkFiles, total: int)
    requires WellTyped(reqs, s)
  {
    && p in s.slots && SlotBefore(s.slots[p], content)
    && (forall r | Mine(reqs, p, r) :: Before(reqs[r], s.slots[p], s.pcs[r], total))
    && (exists r :: Mine(reqs, p, r) && InRace(s.slots[p], s.pcs[r], total))
  }

  /** The step is harmless, or wins the lock with every chunk on disk. */
  lemma ActBefore(q: Request, s: Slot, pc: Pc, content: ChunkFiles, total: nat)
    requires CoversRange(content, total) && SlotBefore(s, content) && Before(q, s, pc, total)
    requires q.total == total && q.index in content && q.data == content[q.index]
    ensures var (s', pc') := Act(q, s, pc, Fine);
            if pc.Deciding? && pc.n == total
            then pc' == Locked && s' == s.(locked := true) && s.temp == Some(content)
            else SlotBefore(s', content) && Before(q, s', pc', total)
                 && (forall i :: i != q.index ==> OnDisk(s'.temp, i) == OnDisk(s.temp, i))
                 && (s.temp.Some? ==> s'.temp.Some?) && (OnDisk(s.temp, q.index) ==> OnDisk(s'.temp, q.index))
                 && (InRace(s, pc, total) ==> InRace(s', pc', total) || !Full(s'.temp, total))
  {
    if pc.Deciding? && pc.n == total {
      assert OnDisk(s.temp, q.index);
      var files := s.temp.value;
      forall i ensures i in files <==> i in content {
        assert i in content ==> OnDisk(s.temp, i);
      }
      assert files.Keys == content.Keys;
      assert forall i | i in files :: files[i] == content[i];
      assert files == content;
    }
  }

  /** The others' situation only improves as chunks arrive. */
  lemma BeforeSurvives(q: Request, s: Slot, s': Slot, pc: Pc, total: int)
    requires Before(q, s, pc, total)
    requires forall i :: OnDisk(s.temp, i) ==> OnDisk(s'.temp, i)
    requires s.temp.Some? ==> s'.temp.Some?
    ensures Before(q, s', pc, total)
    ensures InRace(s, pc, total) ==> InRace(s', pc, total)
  {
    assert forall k :: Full(s.temp, k) ==> Full(s'.temp, k);
  }

  /** A chunk that is missing has a request that is still to save it. */
  lemma SenderIsEarly(reqs: Requests, s: System, p: Pid, content: ChunkFiles, total: nat) returns (late: Rid)
    requires WellTyped(reqs, s) && p in s.slots && SendsAll(reqs, p, content, total)
    requires forall r | Mine(reqs, p, r) :: Before(reqs[r], s.slots[p], s.pcs[r], total)
    requires !Full(s.slots[p].temp, total)
    ensures Mine(reqs, p, late) && InRace(s.slots[p], s.pcs[late], total)
  {
    var i :| 0 <= i < total && !OnDisk(s.slots[p].temp, i);
    assert i in content;
    late :| Sends(reqs, p, late, i);
  }

  /** A step of a request for `p`: it wins, or the race stays open. */
  lemma StepOpen(reqs: Requests, s: System, t: Turn, p: Pid, content: ChunkFiles, total: nat)
    requires WellTyped(reqs, s) && SendsAll(reqs, p, content, total)
    requires Open(reqs, s, p, content, total) && Mine(reqs, p, t.rid) && t.fault.Fine?
    ensures var s', pc := Step(reqs, s, t), s.pcs[t.rid];
            if pc.Deciding? && pc.n == total
            then s' == System(s.slots[p := s.slots[p].(locked := true)], s.pcs[t.rid := Locked]) && s.slots[p].temp == Some(content)
            else Open(reqs, s', p, content, total)
  {
    var s', r, slot, slot' := Step(reqs, s, t), t.rid, s.slots[p], Step(reqs, s, t).slots[p];
    ActBefore(reqs[r], slot, s.pcs[r], content, total);
    hide Act, CoversRange, Full, Before, SlotBefore, InRace;
    if !(s.pcs[r].Deciding? && s.pcs[r].n == total) {
      forall r' | Mine(reqs, p, r') && r' != r
        ensures Before(reqs[r'], slot', s'.pcs[r'], total)
        ensures InRace(slot, s.pcs[r'], total) ==> InRace(slot', s'.pcs[r'], total)
      {
        BeforeSurvives(reqs[r'], slot, slot', s.pcs[r'], total);
      }
      var racer :| Mine(reqs, p, racer) && InRace(slot, s.pcs[racer], total);
      if racer == r && !InRace(slot', s'.pcs[r], total) {
        var late := SenderIsEarly(reqs, s', p, content, total);
        assert InRace(slot', s'.pcs[late], total);
      } else {
        assert InRace(slot', s'.pcs[racer], total);
      }
    }
  }

  lemma StartIsOpen(reqs: Requests, s: System, p: Pid, content: ChunkFiles, total: nat)
    requires Fresh(reqs, s) && SendsAll(reqs, p, content, total) && Untouched(s, p)
    ensures Open(reqs, s, p, content, total)
  {
    assert 0 in content;
    var r :| Sends(reqs, p, r, 0);
    assert Mine(reqs, p, r) && InRace(s.slots[p], s.pcs[r], total);
  }
}
