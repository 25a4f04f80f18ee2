/** Uploads in which chunks may be sent more than once: what is stored is always the content, somebody
    always completes, and exactly one file comes of it when, and only when, some chunk has one sender. */
module UploadResends {
  import opened Basics
  import opened Chunks
  import opened UploadProtocol
  import opened UploadRace
  import opened UploadBound
  import opened Upload
  import opened UploadBursts

  // ----- what is stored -----

  predicate OutIsContent(pc: Pc, content: ChunkFiles, total: nat)
    requires HasAll(content, total)
  {
    match pc
    case Merging(i, out) => 0 <= i <= total && out == Join(content, i)
    case Saving(out) => out == Join(content, total)
    case _ => true
  }

  predicate SlotIsContent(s: Slot, content: ChunkFiles, total: nat)
    requires HasAll(content, total)
  {
    && (s.temp.Some? ==> forall i <- s.temp.value :: i in content && s.temp.value[i] == content[i])
    && forall k | 0 <= k < |s.infos| :: s.infos[k] == Stored(s.fileSize, Join(content, total))
  }

  ghost predicate IsContent(reqs: Requests, s: System, p: Pid, content: ChunkFiles, total: nat)
    requires WellTyped(reqs, s) && HasAll(content, total)
  {
    && p in s.slots && SlotIsContent(s.slots[p], content, total)
    && forall r | Mine(reqs, p, r) :: OutIsContent(s.pcs[r], content, total)
  }

  lemma ActIsContent(q: Request, s: Slot, pc: Pc, f: Fault, content: ChunkFiles, total: nat)
    requires HasAll(content, total) && SlotIsContent(s, content, total) && OutIsContent(pc, content, total)
    requires q.total == total && q.index in content && q.data == content[q.index] && !f.Torn?
    ensures var (s', pc') := Act(q, s, pc, f); SlotIsContent(s', content, total) && OutIsContent(pc', content, total)
  {
  }

  lemma {:induction false} RunKeepsContent(reqs: Requests, s: System, ts: seq<Turn>, p: Pid, content: ChunkFiles, total: nat)
    requires WellTyped(reqs, s) && SendsOnly(reqs, p, content, total) && HasAll(content, total)
    requires IsContent(reqs, s, p, content, total) && forall k | 0 <= k < |ts| :: !ts[k].fault.Torn?
    ensures IsContent(reqs, Run(reqs, s, ts), p, content, total)
    decreases |ts|
  {
    if ts != [] {
      var s', r := Step(reqs, s, ts[0]), ts[0].rid;
      if Mine(reqs, p, r) {
        ActIsContent(reqs[r], s.slots[p], s.pcs[r], ts[0].fault, content, total);
      }
      hide Act, SlotIsContent, OutIsContent;
      assert IsContent(reqs, s', p, content, total);
      RunKeepsContent(reqs, s', ts[1..], p, content, total);
    }
  }

  /** Whatever is re-sent and whatever fails, short of a chunk being written in part: every FileInfo that
      any of the requests creates holds exactly the chunks in index order, with the size of the precheck. */
  lemma {:induction false} EveryFileIsContent(reqs: Requests, s: System, ts: seq<Turn>, p: Pid, content: ChunkFiles, total: nat)
    requires Fresh(reqs, s) && SendsOnly(reqs, p, content, total) && HasAll(content, total) && Untouched(s, p)
    requires forall k | 0 <= k < |ts| :: !ts[k].fault.Torn?
    ensures var infos := Run(reqs, s, ts).slots[p].infos;
            forall k | 0 <= k < |infos| :: infos[k] == Stored(s.slots[p].fileSize, Join(content, total))
  {
    assert IsContent(reqs, s, p, content, total);
    RunKeepsContent(reqs, s, ts, p, content, total);
    FileSizeFixed(reqs, s, ts, p);
  }

  // ----- somebody completes -----

  predicate WinnerAt(s: Slot, pc: Pc, content: ChunkFiles, total: nat) {
    match pc
    case Locked => s.temp == Some(content)
    case Merging(i, _) => 0 <= i <= total && s.temp == Some(content)
    case Saving(_) => true
    case Linking => true
    case Finishing => true
    case Cleaning => true
    case Releasing(reply) => reply.Complete?
    case Done(reply) => reply.Complete?
    case _ => false
  }

  ghost predicate Racing(reqs: Requests, s: System, p: Pid, content: ChunkFiles, total: nat, first: Option<Rid>)
    requires WellTyped(reqs, s)
  {
    && p in s.slots
    && match first
       case None => Open(reqs, s, p, content, total)
       case Some(h) => Mine(reqs, p, h) && WinnerAt(s.slots[p], s.pcs[h], content, total)
  }

  lemma ActWinner(q: Request, s: Slot, pc: Pc, content: ChunkFiles, total: nat)
    requires HasAll(content, total) && q.total == total && WinnerAt(s, pc, content, total)
    ensures var (s', pc') := Act(q, s, pc, Fine); WinnerAt(s', pc', content, total)
  {
  }

  /** Re-sent chunks overwrite what is there with the same; only the holder of the lock removes it. */
  lemma ActBystander(q: Request, s: Slot, pc: Pc, content: ChunkFiles)
    requires q.index in content && q.data == content[q.index] && s.temp == Some(content) && !Holds(pc)
    ensures Act(q, s, pc, Fine).0.temp == Some(content)
  {
    assert content[q.index := q.data] == content;
  }

  lemma StepRacing(reqs: Requests, s: System, t: Turn, p: Pid, content: ChunkFiles, total: nat, first: Option<Rid>)
    returns (next: Option<Rid>)
    requires WellTyped(reqs, s) && Exclusive(reqs, s) && SendsAll(reqs, p, content, total) && HasAll(content, total)
    requires Racing(reqs, s, p, content, total, first) && t.fault.Fine?
    ensures Racing(reqs, Step(reqs, s, t), p, content, total, next)
  {
    next := first;
    var r := t.rid;
    if Mine(reqs, p, r) {
      match first {
        case None =>
          StepOpen(reqs, s, t, p, content, total);
          hide Act, Open;
          if s.pcs[r].Deciding? && s.pcs[r].n == total {
            next := Some(r);
          }
        case Some(h) =>
          if r == h {
            ActWinner(reqs[r], s.slots[p], s.pcs[r], content, total);
          } else {
            assert HoldsIn(reqs, s, r, p) <==> Holds(s.pcs[r]);
            assert HoldsIn(reqs, s, h, p) <==> Holds(s.pcs[h]);
            if s.slots[p].temp == Some(content) && !Holds(s.pcs[r]) {
              ActBystander(reqs[r], s.slots[p], s.pcs[r], content);
            }
            hide Act;
          }
      }
    } else {
      hide Act;
      assert Step(reqs, s, t).slots[p] == s.slots[p];
      assert forall r' | Mine(reqs, p, r') :: Step(reqs, s, t).pcs[r'] == s.pcs[r'];
    }
  }

  lemma {:induction false} RunRacing(reqs: Requests, s: System, ts: seq<Turn>, p: Pid, content: ChunkFiles, total: nat, first: Option<Rid>)
    returns (last: Option<Rid>)
    requires WellTyped(reqs, s) && Exclusive(reqs, s) && SendsAll(reqs, p, content, total) && HasAll(content, total)
    requires Racing(reqs, s, p, content, total, first) && FaultFree(ts)
    ensures Racing(reqs, Run(reqs, s, ts), p, content, total, last)
    decreases |ts|
  {
    hide Step, Exclusive, Racing, SendsAll;
    if ts == [] {
      last := first;
    } else {
      var next := StepRacing(reqs, s, ts[0], p, content, total, first);
      StepKeepsExclusive(reqs, s, ts[0]);
      last := RunRacing(reqs, Step(reqs, s, ts[0]), ts[1..], p, content, total, next);
    }
  }

  lemma DoneIsWon(reqs: Requests, t: System, p: Pid, content: ChunkFiles, total: nat, last: Option<Rid>)
    requires WellTyped(reqs, t) && Racing(reqs, t, p, content, total, last) && AllDone(reqs, t, p)
    ensures Completers(reqs, t, p) != {}
  {
    assert last.Some? && last.value in Completers(reqs, t, p);
  }

  /** However often chunks are re-sent, in every failure-free interleaving in which all requests finish, at
      least one UserFile is created. */
  lemma {:induction false} SomeoneCompletes(reqs: Requests, s: System, ts: seq<Turn>, p: Pid, content: ChunkFiles, total: nat)
    requires Fresh(reqs, s) && SendsAll(reqs, p, content, total) && Untouched(s, p)
    requires FaultFree(ts) && AllDone(reqs, Run(reqs, s, ts), p)
    ensures Run(reqs, s, ts).slots[p].links >= 1
  {
    FreshIsExclusive(reqs, s);
    StartIsOpen(reqs, s, p, content, total);
    assert Completers(reqs, s, p) == {};
    var last := RunRacing(reqs, s, ts, p, content, total, None);
    hide Step, Run, Racing, Completers;
    DoneIsWon(reqs, Run(reqs, s, ts), p, content, total, last);
    RunCounts(reqs, s, ts, p);
  }

  // ----- two rounds -----

  /** One sender of each chunk. */
  ghost predicate OneRound(reqs: Requests, p: Pid, total: nat, rs: seq<Rid>) {
    |rs| == total && forall i | 0 <= i < total :: Sends(reqs, p, rs[i], i)
  }

  /** The first `k` chunks. */
  ghost function Part(content: ChunkFiles, k: int): ChunkFiles {
    map i | i in content && i < k :: content[i]
  }

  /** The session after a round has brought `k` chunks. */
  ghost function AfterChunks(s: Slot, content: ChunkFiles, total: nat, k: nat): Slot
    requires HasAll(content, total)
  {
    if k == 0 then s
    else if k < total then s.(temp := Some(Part(content, k)), status := Uploading)
    else s.(temp := None, status := Completed, cached := false,
            infos := s.infos + [Stored(s.fileSize, Join(content, total))], links := s.links + 1)
  }

  lemma AdmittedSends(s: Slot, content: ChunkFiles, total: nat, k: nat)
    requires CoversRange(content, total) && HasAll(content, total) && k < total && s.temp.None? && !s.locked
    ensures AdmittedCall(AfterChunks(s, content, total, k), Call(Chunk(k, total), content[k]), NO_FAULTS).0
            == AfterChunks(s, content, total, k + 1)
  {
    var a := AfterChunks(s, content, total, k);
    var files := if a.temp.Some? then a.temp.value else map[];
    assert files[k := content[k]] == Part(content, k + 1);
    AllPresent(Part(content, k + 1), {}, total);
    if k + 1 == total {
      assert Part(content, total) == content;
      CopiedExactly(Some(content), total, None);
    } else {
      assert k + 1 !in Part(content, k + 1);
    }
  }

  /** Everybody in `rs[..n]` has moved on and nobody else has. */
  ghost predicate OthersKept(s: System, t: System, rs: seq<Rid>, n: nat)
    requires n <= |rs|
  {
    t.pcs.Keys == s.pcs.Keys && forall r <- s.pcs :: r !in rs[..n] ==> t.pcs[r] == s.pcs[r]
  }

  /** All of `rs` read the cached request. */
  lemma {:induction false} Admit(reqs: Requests, start: System, ts: seq<Turn>, p: Pid, rs: seq<Rid>, n: nat) returns (longer: seq<Turn>)
    requires WellTyped(reqs, start) && FaultFree(ts) && p in start.slots && n <= |rs|
    requires var s := Run(reqs, start, ts);
             s.slots[p].cached && forall i | 0 <= i < |rs| :: Mine(reqs, p, rs[i]) && s.pcs[rs[i]].Arrived?
    ensures FaultFree(longer)
    ensures var s, t := Run(reqs, start, ts), Run(reqs, start, longer);
            t.slots == s.slots && OthersKept(s, t, rs, n) && forall i | 0 <= i < n :: t.pcs[rs[i]] == Admitted
  {
    if n == 0 {
      longer := ts;
    } else {
      var mid := Admit(reqs, start, ts, p, rs, n - 1);
      var s, u, r := Run(reqs, start, ts), Run(reqs, start, mid), rs[n - 1];
      hide Run;
      if r in rs[..n - 1] {
        longer := mid;
      } else {
        longer := mid + [Turn(r, Fine)];
        RunOne(reqs, start, mid, Turn(r, Fine));
        assert Run(reqs, start, longer) == System(u.slots[p := u.slots[p]], u.pcs[r := Admitted]);
      }
    }
  }

  lemma RunOne(reqs: Requests, start: System, ts: seq<Turn>, t: Turn)
    requires WellTyped(reqs, start)
    ensures Run(reqs, start, ts + [t]) == Step(reqs, Run(reqs, start, ts), t)
  {
    RunAppend(reqs, start, ts, [t]);
    var s := Run(reqs, start, ts);
    assert Run(reqs, s, [t]) == Run(reqs, Step(reqs, s, t), []);
  }

  lemma SendOne(reqs: Requests, start: System, ts: seq<Turn>, p: Pid, content: ChunkFiles, total: nat, r: Rid, k: nat, base: Slot)
    returns (longer: seq<Turn>)
    requires WellTyped(reqs, start) && FaultFree(ts) && p in start.slots && k < total
    requires SendsOnly(reqs, p, content, total) && HasAll(content, total) && Sends(reqs, p, r, k)
    requires base.temp.None? && !base.locked
    requires var s := Run(reqs, start, ts); s.slots[p] == AfterChunks(base, content, total, k) && s.pcs[r] == Admitted
    ensures FaultFree(longer)
    ensures var s, t := Run(reqs, start, ts), Run(reqs, start, longer);
            t.slots[p] == AfterChunks(base, content, total, k + 1) && t.pcs[r].Done? && t.pcs == s.pcs[r := t.pcs[r]]
  {
    var s := Run(reqs, start, ts);
    var (slot, reply) := AdmittedCall(s.slots[p], Call(Chunk(k, total), content[k]), NO_FAULTS);
    SoloIsAdmittedCall(reqs[r], NO_FAULTS, s.slots[p]);
    AdmittedSends(base, content, total, k);
    hide Run, AdmittedCall, AfterChunks, Reaches;
    longer := Burst(reqs, s, r, (slot, Done(reply)), ts, start);
  }

  /** The system `t` is `s` after the first `k` of `rs` have sent their chunks. */
  ghost predicate Sent(s: System, t: System, p: Pid, content: ChunkFiles, total: nat, rs: seq<Rid>, k: nat)
    requires HasAll(content, total) && p in s.slots && k <= |rs|
  {
    && p in t.slots && t.slots[p] == AfterChunks(s.slots[p], content, total, k)
    && OthersKept(s, t, rs, k) && forall i | 0 <= i < k :: rs[i] in t.pcs && t.pcs[rs[i]].Done?
  }

  lemma SentNext(reqs: Requests, s: System, u: System, t: System, p: Pid, content: ChunkFiles, total: nat, rs: seq<Rid>, k: nat)
    requires HasAll(content, total) && p in s.slots && k < |rs| == total && OneRound(reqs, p, total, rs)
    requires Sent(s, u, p, content, total, rs, k) && rs[k] in u.pcs
    requires p in t.slots && t.slots[p] == AfterChunks(s.slots[p], content, total, k + 1)
    requires rs[k] in t.pcs && t.pcs[rs[k]].Done? && t.pcs == u.pcs[rs[k] := t.pcs[rs[k]]]
    ensures Sent(s, t, p, content, total, rs, k + 1)
  {
    hide AfterChunks;
    assert rs[..k + 1] == rs[..k] + [rs[k]];
  }

  lemma NotYet(reqs: Requests, s: System, u: System, p: Pid, content: ChunkFiles, total: nat, rs: seq<Rid>, k: nat)
    requires HasAll(content, total) && p in s.slots && k < |rs| == total && OneRound(reqs, p, total, rs)
    requires Sent(s, u, p, content, total, rs, k) && rs[k] in s.pcs
    ensures u.slots[p] == AfterChunks(s.slots[p], content, total, k)
    ensures rs[k] in u.pcs && u.pcs[rs[k]] == s.pcs[rs[k]] && Sends(reqs, p, rs[k], k)
  {
    hide AfterChunks;
    assert forall i | 0 <= i < k :: Sends(reqs, p, rs[i], i);
    assert Sends(reqs, p, rs[k], k) && rs[k] !in rs[..k];
  }

  lemma RoundOne(reqs: Requests, start: System, mid: seq<Turn>, p: Pid, content: ChunkFiles, total: nat, rs: seq<Rid>, k: nat, s: System)
    returns (longer: seq<Turn>)
    requires WellTyped(reqs, start) && FaultFree(mid) && p in start.slots && k < total
    requires SendsOnly(reqs, p, content, total) && HasAll(content, total) && OneRound(reqs, p, total, rs)
    requires p in s.slots && s.slots[p].temp.None? && !s.slots[p].locked && rs[k] in s.pcs && s.pcs[rs[k]] == Admitted
    requires Sent(s, Run(reqs, start, mid), p, content, total, rs, k)
    ensures FaultFree(longer) && Sent(s, Run(reqs, start, longer), p, content, total, rs, k + 1)
  {
    var u := Run(reqs, start, mid);
    NotYet(reqs, s, u, p, content, total, rs, k);
    hide Run, Sent, SendsOnly, OneRound, AfterChunks;
    longer := SendOne(reqs, start, mid, p, content, total, rs[k], k, s.slots[p]);
    SentNext(reqs, s, u, Run(reqs, start, longer), p, content, total, rs, k);
  }

  lemma NoneSent(s: System, p: Pid, content: ChunkFiles, total: nat, rs: seq<Rid>)
    requires HasAll(content, total) && p in s.slots
    ensures Sent(s, s, p, content, total, rs, 0)
  {
  }

  /** A round of admitted requests, one after the other, makes a file of the content. */
  lemma {:induction false} Round(reqs: Requests, start: System, ts: seq<Turn>, p: Pid, content: ChunkFiles, total: nat, rs: seq<Rid>, k: nat)
    returns (longer: seq<Turn>)
    requires WellTyped(reqs, start) && FaultFree(ts) && p in start.slots && k <= total
    requires SendsOnly(reqs, p, content, total) && HasAll(content, total) && OneRound(reqs, p, total, rs)
    requires var s := Run(reqs, start, ts);
             && s.slots[p].temp.None? && !s.slots[p].locked
             && forall i | 0 <= i < total :: rs[i] in reqs && s.pcs[rs[i]] == Admitted
    ensures FaultFree(longer) && Sent(Run(reqs, start, ts), Run(reqs, start, longer), p, content, total, rs, k)
    decreases k
  {
    hide Run, Sent, SendsOnly, HasAll, FaultFree;
    if k == 0 {
      longer := ts;
      NoneSent(Run(reqs, start, ts), p, content, total, rs);
    } else {
      var mid := Round(reqs, start, ts, p, content, total, rs, k - 1);
      longer := RoundOne(reqs, start, mid, p, content, total, rs, k - 1, Run(reqs, start, ts));
    }
  }

  /** Once the cached request is gone, whoever has not started is turned away. */
  lemma {:induction false} FinishRest(reqs: Requests, start: System, ts: seq<Turn>, p: Pid, rest: set<Rid>) returns (longer: seq<Turn>)
    requires WellTyped(reqs, start) && FaultFree(ts) && p in start.slots
    requires var s := Run(reqs, start, ts);
             && !s.slots[p].cached && (forall r <- rest :: Mine(reqs, p, r))
             && forall r | Mine(reqs, p, r) :: if r in rest then s.pcs[r].Arrived? else s.pcs[r].Done?
    decreases rest
    ensures FaultFree(longer)
    ensures Run(reqs, start, longer).slots == Run(reqs, start, ts).slots && AllDone(reqs, Run(reqs, start, longer), p)
  {
    if rest == {} {
      longer := ts;
    } else {
      var r :| r in rest;
      var s, next := Run(reqs, start, ts), ts + [Turn(r, Fine)];
      RunOne(reqs, start, ts, Turn(r, Fine));
      hide Run;
      assert Run(reqs, start, next) == System(s.slots[p := s.slots[p]], s.pcs[r := Done(Expired)]);
      assert Run(reqs, start, next).slots == s.slots;
      longer := FinishRest(reqs, start, next, p, rest - {r});
    }
  }

  // ----- exactly one file -----

  ghost predicate SingleSender(reqs: Requests, p: Pid, i: int) {
    |Senders(reqs, p, i)| == 1
  }

  lemma TwoSenders(reqs: Requests, p: Pid, i: int) returns (a: Rid, b: Rid)
    requires |Senders(reqs, p, i)| >= 2
    ensures a != b && Sends(reqs, p, a, i) && Sends(reqs, p, b, i)
  {
    a :| a in Senders(reqs, p, i);
    var others := Senders(reqs, p, i) - {a};
    assert Senders(reqs, p, i) == others + {a};
    assert others != {};
    b :| b in others;
  }

  lemma {:induction false} PickRounds(reqs: Requests, p: Pid, total: nat) returns (first: seq<Rid>, second: seq<Rid>)
    requires forall i | 0 <= i < total :: |Senders(reqs, p, i)| >= 2
    ensures OneRound(reqs, p, total, first) && OneRound(reqs, p, total, second)
    ensures forall i | 0 <= i < total :: first[i] != second[i]
    decreases total
  {
    first, second := [], [];
    if total > 0 {
      first, second := PickRounds(reqs, p, total - 1);
      var a, b := TwoSenders(reqs, p, total - 1);
      first, second := first + [a], second + [b];
    }
  }

  /** Two senders of every chunk can make two files. */
  lemma {:induction false} TwoRoundsTwoFiles(reqs: Requests, s: System, p: Pid, content: ChunkFiles, total: nat) returns (ts: seq<Turn>)
    requires Fresh(reqs, s) && SendsAll(reqs, p, content, total) && HasAll(content, total) && Untouched(s, p)
    requires forall i <- content :: !SingleSender(reqs, p, i)
    ensures FaultFree(ts) && AllDone(reqs, Run(reqs, s, ts), p) && Run(reqs, s, ts).slots[p].links == 2
  {
    forall i | 0 <= i < total ensures |Senders(reqs, p, i)| >= 2 {
      assert i in content && !SingleSender(reqs, p, i);
      var r :| Sends(reqs, p, r, i);
      assert r in Senders(reqs, p, i);
    }
    var first, second := PickRounds(reqs, p, total);
    Disjoint(reqs, p, total, first, second);
    StartAdmits(reqs, s, p, total, first, second);
    ts := Admit(reqs, s, [], p, first + second, 2 * total);
    var s1 := Run(reqs, s, ts);
    BothAdmitted(s, s1, first, second, total);
    ts := Round(reqs, s, ts, p, content, total, first, total);
    var s2 := Run(reqs, s, ts);
    SecondStillAdmitted(s1, s2, p, content, total, first, second);
    ts := Round(reqs, s, ts, p, content, total, second, total);
    var s3 := Run(reqs, s, ts);
    var rest := set r | r in reqs && Mine(reqs, p, r) && r !in first && r !in second;
    RestArrived(reqs, p, s, s1, s2, s3, content, total, first, second);
    ts := FinishRest(reqs, s, ts, p, rest);
  }

  lemma Disjoint(reqs: Requests, p: Pid, total: nat, first: seq<Rid>, second: seq<Rid>)
    requires OneRound(reqs, p, total, first) && OneRound(reqs, p, total, second)
    requires forall i | 0 <= i < total :: first[i] != second[i]
    ensures forall i, j | 0 <= i < total && 0 <= j < total :: first[i] != second[j]
  {
    forall i, j | 0 <= i < total && 0 <= j < total ensures first[i] != second[j] {
      assert Sends(reqs, p, first[i], i) && Sends(reqs, p, second[j], j);
    }
  }

  lemma StartAdmits(reqs: Requests, s: System, p: Pid, total: nat, first: seq<Rid>, second: seq<Rid>)
    requires Fresh(reqs, s) && Untouched(s, p) && OneRound(reqs, p, total, first) && OneRound(reqs, p, total, second)
    ensures Run(reqs, s, []) == s
    ensures forall i | 0 <= i < 2 * total :: Mine(reqs, p, (first + second)[i]) && s.pcs[(first + second)[i]].Arrived?
  {
    forall i | 0 <= i < 2 * total ensures Mine(reqs, p, (first + second)[i]) {
      if i < total {
        assert Sends(reqs, p, first[i], i);
      } else {
        assert Sends(reqs, p, second[i - total], i - total);
      }
    }
  }

  lemma BothAdmitted(s: System, s1: System, first: seq<Rid>, second: seq<Rid>, total: nat)
    requires |first| == |second| == total
    requires forall i | 0 <= i < 2 * total :: (first + second)[i] in s1.pcs && s1.pcs[(first + second)[i]] == Admitted
    ensures forall i | 0 <= i < total :: first[i] in s1.pcs && s1.pcs[first[i]] == Admitted
    ensures forall i | 0 <= i < total :: second[i] in s1.pcs && s1.pcs[second[i]] == Admitted
  {
    var both := first + second;
    assert forall i | 0 <= i < total :: both[i] == first[i];
    forall i | 0 <= i < total ensures second[i] in s1.pcs && s1.pcs[second[i]] == Admitted {
      assert both[total + i] == second[i];
    }
  }

  lemma SecondStillAdmitted(s1: System, s2: System, p: Pid, content: ChunkFiles, total: nat, first: seq<Rid>, second: seq<Rid>)
    requires |first| == |second| == total >= 1 && HasAll(content, total) && p in s1.slots
    requires Sent(s1, s2, p, content, total, first, total)
    requires forall i | 0 <= i < total :: second[i] in s1.pcs && s1.pcs[second[i]] == Admitted
    requires forall i, j | 0 <= i < total && 0 <= j < total :: first[i] != second[j]
    ensures s2.slots[p] == AfterChunks(s1.slots[p], content, total, total) && s2.slots[p].temp.None?
    ensures forall i | 0 <= i < total :: second[i] in s2.pcs && s2.pcs[second[i]] == Admitted
  {
    assert first[..total] == first;
  }

  lemma RestArrived(reqs: Requests, p: Pid, s: System, s1: System, s2: System, s3: System, content: ChunkFiles, total: nat,
                    first: seq<Rid>, second: seq<Rid>)
    requires Fresh(reqs, s) && Untouched(s, p) && |first| == |second| == total >= 1 && HasAll(content, total)
    requires s1.slots == s.slots && OthersKept(s, s1, first + second, 2 * total)
    requires Sent(s1, s2, p, content, total, first, total) && Sent(s2, s3, p, content, total, second, total)
    requires forall i, j | 0 <= i < total && 0 <= j < total :: first[i] != second[j]
    ensures !s3.slots[p].cached && s3.slots[p].links == 2 && s3.pcs.Keys == reqs.Keys
    ensures forall r | Mine(reqs, p, r) :: if r in first || r in second then s3.pcs[r].Done? else s3.pcs[r].Arrived?
  {
    assert first[..total] == first && second[..total] == second && (first + second)[..2 * total] == first + second;
    forall r | Mine(reqs, p, r) ensures if r in first || r in second then s3.pcs[r].Done? else s3.pcs[r].Arrived? {
      assert r in first ==> r !in second;
    }
  }

  /** The requests for an upload send each of its chunks at least once, and nothing fails. Whatever the
      interleaving, once all have finished there is exactly one UserFile: if and only if some chunk is sent
      by a single request. */
  lemma {:induction false} OneFileExactly(reqs: Requests, s: System, p: Pid, content: ChunkFiles, total: nat)
    requires Fresh(reqs, s) && SendsAll(reqs, p, content, total) && Untouched(s, p)
    ensures (forall ts :: FaultFree(ts) && AllDone(reqs, Run(reqs, s, ts), p) ==> Run(reqs, s, ts).slots[p].links == 1)
            <==> exists i <- content :: SingleSender(reqs, p, i)
  {
    hide Run, Step, AllDone, FaultFree, SendsOnly;
    if i :| i in content && SingleSender(reqs, p, i) {
      forall ts | FaultFree(ts) && AllDone(reqs, Run(reqs, s, ts), p) ensures Run(reqs, s, ts).slots[p].links == 1 {
        SingleSenderOneFile(reqs, s, ts, p, content, total, i);
      }
    } else {
      CoversAll(reqs, p, content, total);
      var ts := TwoRoundsTwoFiles(reqs, s, p, content, total);
    }
  }

  lemma CoversAll(reqs: Requests, p: Pid, content: ChunkFiles, total: int)
    requires SendsAll(reqs, p, content, total)
    ensures total >= 1 && HasAll(content, total)
    ensures forall r | Mine(reqs, p, r) :: reqs[r].total == total
    ensures forall i <- content :: 0 <= i < total
  {
  }

  lemma SingleSenderOneFile(reqs: Requests, s: System, ts: seq<Turn>, p: Pid, content: ChunkFiles, total: nat, i: int)
    requires Fresh(reqs, s) && SendsAll(reqs, p, content, total) && Untouched(s, p)
    requires i in content && SingleSender(reqs, p, i)
    requires FaultFree(ts) && AllDone(reqs, Run(reqs, s, ts), p)
    ensures Run(reqs, s, ts).slots[p].links == 1
  {
    CoversAll(reqs, p, content, total);
    SomeoneCompletes(reqs, s, ts, p, content, total);
    FaultFreeSweeps(reqs, s, ts);
    NoMoreFilesThanSenders(reqs, s, ts, p, i);
  }
}
