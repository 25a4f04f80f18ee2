/** Building interleavings out of stretches in which one request runs alone. */
module UploadBursts {
  import opened Basics
  import opened Chunks
  import opened UploadProtocol
  import opened Upload

  /** The system after request `r` has moved to `b` on its own. */
  function Moved(reqs: Requests, s: System, r: Rid, b: (Slot, Pc)): System
    requires WellTyped(reqs, s) && r in reqs
  {
    System(s.slots[reqs[r].pid := b.0], s.pcs[r := b.1])
  }

  lemma {:induction false} BurstOf(reqs: Requests, s: System, r: Rid, k: nat) returns (ts: seq<Turn>)
    requires WellTyped(reqs, s) && r in reqs
    ensures FaultFree(ts)
    ensures Run(reqs, s, ts) == Moved(reqs, s, r, Solo(reqs[r], NO_FAULTS, (s.slots[reqs[r].pid], s.pcs[r]), k))
    decreases k
  {
    var a := (s.slots[reqs[r].pid], s.pcs[r]);
    if k == 0 {
      ts := [];
      assert Moved(reqs, s, r, a) == s;
    } else {
      var s' := Step(reqs, s, Turn(r, Fine));
      var b := Act(reqs[r], a.0, a.1, Fine);
      assert s' == Moved(reqs, s, r, b);
      var rest := BurstOf(reqs, s', r, k - 1);
      ts := [Turn(r, Fine)] + rest;
      assert ts[1..] == rest;
      var last := Solo(reqs[r], NO_FAULTS, b, k - 1);
      assert Moved(reqs, s', r, last) == Moved(reqs, s, r, last);
    }
  }

  /** Whatever one request can reach alone, it can reach from any state of the system. */
  lemma Burst(reqs: Requests, s: System, r: Rid, b: (Slot, Pc), ts: seq<Turn>, start: System) returns (longer: seq<Turn>)
    requires WellTyped(reqs, start) && FaultFree(ts) && s == Run(reqs, start, ts) && r in reqs
    requires Reaches(reqs[r], NO_FAULTS, (s.slots[reqs[r].pid], s.pcs[r]), b)
    ensures FaultFree(longer) && ts <= longer && Run(reqs, start, longer) == Moved(reqs, s, r, b)
  {
    var k: nat :| Solo(reqs[r], NO_FAULTS, (s.slots[reqs[r].pid], s.pcs[r]), k) == b;
    var more := BurstOf(reqs, s, r, k);
    longer := ts + more;
    RunAppend(reqs, start, ts, more);
  }
}
