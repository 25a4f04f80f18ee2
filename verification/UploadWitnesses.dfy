/** Interleavings of upload requests that show the limits of what the protocol guarantees. */
module UploadWitnesses {
  import opened Basics
  import opened Chunks
  import opened UploadProtocol
  import opened Upload
  import opened UploadBursts

  const P: Pid := "p"

  /** Two requests for the same upload. */
  function Pair(s: Slot, first: Pc, second: Pc): System {
    System(map[P := s], map[0 := first, 1 := second])
  }

  ghost predicate TwoFor(reqs: Requests) {
    reqs.Keys == {0, 1} && reqs[0].pid == P && reqs[1].pid == P
  }

  lemma BurstFirst(reqs: Requests, start: System, ts: seq<Turn>, s: Slot, a: Pc, other: Pc, s': Slot, b: Pc)
    returns (longer: seq<Turn>)
    requires TwoFor(reqs) && WellTyped(reqs, start) && FaultFree(ts) && Run(reqs, start, ts) == Pair(s, a, other)
    requires Reaches(reqs[0], NO_FAULTS, (s, a), (s', b))
    ensures FaultFree(longer) && ts <= longer && Run(reqs, start, longer) == Pair(s', b, other)
  {
    hide Reaches, Run;
    longer := Burst(reqs, Pair(s, a, other), 0, (s', b), ts, start);
    assert Moved(reqs, Pair(s, a, other), 0, (s', b)) == Pair(s', b, other);
  }

  lemma BurstSecond(reqs: Requests, start: System, ts: seq<Turn>, s: Slot, a: Pc, other: Pc, s': Slot, b: Pc)
    returns (longer: seq<Turn>)
    requires TwoFor(reqs) && WellTyped(reqs, start) && FaultFree(ts) && Run(reqs, start, ts) == Pair(s, other, a)
    requires Reaches(reqs[1], NO_FAULTS, (s, a), (s', b))
    ensures FaultFree(longer) && ts <= longer && Run(reqs, start, longer) == Pair(s', other, b)
  {
    hide Reaches, Run;
    longer := Burst(reqs, Pair(s, other, a), 1, (s', b), ts, start);
    assert Moved(reqs, Pair(s, other, a), 1, (s', b)) == Pair(s', other, b);
  }

  const OPEN: Slot := Slot(true, 2, None, false, Pending, [], 0)

  // ----- completed is not final -----

  const HALVES: Requests := map[0 := Request(P, 0, 2, [1]), 1 := Request(P, 1, 2, [2])]
  const BOTH: ChunkFiles := map[0 := [1], 1 := [2]]

  const ARRIVED: System := Pair(OPEN, Arrived, Arrived)

  lemma FirstSaves()
    ensures Reaches(HALVES[0], NO_FAULTS, (OPEN, Arrived), (OPEN.(temp := Some(map[0 := [1]])), Counting(0, 0)))
  {
    var made := OPEN.(temp := Some(map[]));
    var saved := (OPEN.(temp := Some(map[0 := [1]])), Counting(0, 0));
    Stay(HALVES[0], NO_FAULTS, saved);
    StepThen(HALVES[0], NO_FAULTS, (made, Prepared), saved);
    StepThen(HALVES[0], NO_FAULTS, (OPEN, Admitted), saved);
    StepThen(HALVES[0], NO_FAULTS, (OPEN, Arrived), saved);
  }

  lemma SecondSaves()
    ensures Reaches(HALVES[1], NO_FAULTS, (OPEN.(temp := Some(map[0 := [1]])), Arrived), (OPEN.(temp := Some(BOTH)), Counting(0, 0)))
  {
    var s := OPEN.(temp := Some(map[0 := [1]]));
    var saved := (OPEN.(temp := Some(BOTH)), Counting(0, 0));
    assert map[0 := [1]][1 := [2]] == BOTH;
    Stay(HALVES[1], NO_FAULTS, saved);
    StepThen(HALVES[1], NO_FAULTS, (s, Prepared), saved);
    StepThen(HALVES[1], NO_FAULTS, (s, Admitted), saved);
    StepThen(HALVES[1], NO_FAULTS, (s, Arrived), saved);
  }

  lemma CountsBoth(r: Rid, s: Slot)
    requires r < 2 && s.temp == Some(BOTH)
    ensures Reaches(HALVES[r], NO_FAULTS, (s, Counting(0, 0)), (s.(status := Uploading), Deciding(2)))
  {
    var done := (s.(status := Uploading), Deciding(2));
    assert CountPresent(BOTH, {}, 1) == 1 && CountPresent(BOTH, {}, 2) == 2;
    SoloCounts(HALVES[r], NO_FAULTS, s, 0);
    Stay(HALVES[r], NO_FAULTS, done);
    StepThen(HALVES[r], NO_FAULTS, (s, Noting(2)), done);
    Then(HALVES[r], NO_FAULTS, (s, Counting(0, 0)), (s, Noting(2)), done);
  }

  const MERGED: Slot := OPEN.(temp := None, status := Completed, cached := false, infos := [Stored(2, [1, 2])], links := 1)

  lemma FirstMerges()
    ensures Reaches(HALVES[0], NO_FAULTS, (OPEN.(temp := Some(BOTH), status := Uploading), Deciding(2)), (MERGED, Done(Complete)))
  {
    var s := OPEN.(temp := Some(BOTH), status := Uploading);
    assert Join(BOTH, 1) == [1] && Join(BOTH, 2) == [1, 2];
    assert s.infos + [Stored(2, [1, 2])] == MERGED.infos;
    CopiedExactly(s.temp, 2, None);
    SoloWins(HALVES[0], NO_FAULTS, s, 2);
  }

  lemma SecondFails()
    ensures Reaches(HALVES[1], NO_FAULTS, (MERGED, Deciding(2)), (MERGED.(status := Failed), Done(Error(OpenFailed(0)))))
  {
    var locked := MERGED.(locked := true);
    var done := (MERGED.(status := Failed), Done(Error(OpenFailed(0))));
    Stay(HALVES[1], NO_FAULTS, done);
    StepThen(HALVES[1], NO_FAULTS, (locked.(status := Failed), Releasing(Error(OpenFailed(0)))), done);
    StepThen(HALVES[1], NO_FAULTS, (locked, Failing(OpenFailed(0))), done);
    StepThen(HALVES[1], NO_FAULTS, (locked, Merging(0, [])), done);
    StepThen(HALVES[1], NO_FAULTS, (locked, Locked), done);
    StepThen(HALVES[1], NO_FAULTS, (MERGED, Deciding(2)), done);
  }

  const COUNTED: Slot := OPEN.(temp := Some(BOTH), status := Uploading)

  lemma BothSave() returns (ts: seq<Turn>)
    ensures FaultFree(ts) && Run(HALVES, ARRIVED, ts) == Pair(OPEN.(temp := Some(BOTH)), Counting(0, 0), Counting(0, 0))
  {
    var one := OPEN.(temp := Some(map[0 := [1]]));
    FirstSaves();
    SecondSaves();
    RunNothing(HALVES, ARRIVED);
    hide Run, Reaches, Pair;
    ts := BurstFirst(HALVES, ARRIVED, [], OPEN, Arrived, Arrived, one, Counting(0, 0));
    ts := BurstSecond(HALVES, ARRIVED, ts, one, Arrived, Counting(0, 0), OPEN.(temp := Some(BOTH)), Counting(0, 0));
  }

  /** Both requests have saved their chunk and counted two. */
  lemma BothCount() returns (ts: seq<Turn>)
    ensures FaultFree(ts)
    ensures Run(HALVES, ARRIVED, ts) == Pair(COUNTED, Deciding(2), Deciding(2))
  {
    ts := BothSave();
    CountsBoth(0, OPEN.(temp := Some(BOTH)));
    CountsBoth(1, COUNTED);
    hide Run, Reaches, Pair;
    ts := BurstFirst(HALVES, ARRIVED, ts, OPEN.(temp := Some(BOTH)), Counting(0, 0), Counting(0, 0), COUNTED, Deciding(2));
    ts := BurstSecond(HALVES, ARRIVED, ts, COUNTED, Counting(0, 0), Deciding(2), COUNTED, Deciding(2));
  }

  /** Two requests send the two chunks once each and nothing fails. One completes the upload; the other had
      already counted both chunks, takes the lock next, finds no chunk, and marks the upload failed. */
  lemma CompletedIsNotFinal() returns (ts: seq<Turn>, more: seq<Turn>)
    ensures Fresh(HALVES, ARRIVED) && FaultFree(more) && ts <= more
    ensures Run(HALVES, ARRIVED, ts) == Pair(MERGED, Done(Complete), Deciding(2))
    ensures Run(HALVES, ARRIVED, more) == Pair(MERGED.(status := Failed), Done(Complete), Done(Error(OpenFailed(0))))
    ensures MERGED.status == Completed && MERGED.links == 1
  {
    FirstMerges();
    SecondFails();
    ts := BothCount();
    hide Run, Reaches;
    ts := BurstFirst(HALVES, ARRIVED, ts, COUNTED, Deciding(2), Deciding(2), MERGED, Done(Complete));
    more := BurstSecond(HALVES, ARRIVED, ts, MERGED, Deciding(2), Done(Complete),
                        MERGED.(status := Failed), Done(Error(OpenFailed(0))));
  }

  const HALF: Slot := OPEN.(temp := Some(map[0 := [1]]))

  /** The first request saves its chunk and counts one. */
  lemma FirstCountsOne()
    ensures Reaches(HALVES[0], NO_FAULTS, (OPEN, Arrived), (HALF, Noting(1)))
  {
    FirstSaves();
    assert CountPresent(HALF.temp.value, {}, 1) == 1 && CountPresent(HALF.temp.value, {}, 2) == 1;
    SoloCounts(HALVES[0], NO_FAULTS, HALF, 0);
    Then(HALVES[0], NO_FAULTS, (OPEN, Arrived), (HALF, Counting(0, 0)), (HALF, Noting(1)));
  }

  /** The second brings the other chunk and merges. */
  lemma SecondMerges()
    ensures Reaches(HALVES[1], NO_FAULTS, (HALF, Arrived), (MERGED, Done(Complete)))
  {
    assert map[0 := [1]][1 := [2]] == BOTH;
    assert CountPresent(BOTH, {}, 1) == 1 && CountPresent(BOTH, {}, 2) == 2;
    assert Join(BOTH, 1) == [1] && Join(BOTH, 2) == [1, 2];
    CopiedExactly(Some(BOTH), 2, None);
    assert OPEN.infos + [Stored(2, [1, 2])] == MERGED.infos;
    SoloIsUploadChunk(HALVES[1], NO_FAULTS, HALF);
  }

  lemma FirstNotesLate()
    ensures Reaches(HALVES[0], NO_FAULTS, (MERGED, Noting(1)), (MERGED.(status := Uploading), Done(Partial(1, 2))))
  {
    var done := (MERGED.(status := Uploading), Done(Partial(1, 2)));
    Stay(HALVES[0], NO_FAULTS, done);
    StepThen(HALVES[0], NO_FAULTS, (MERGED.(status := Uploading), Deciding(1)), done);
    StepThen(HALVES[0], NO_FAULTS, (MERGED, Noting(1)), done);
  }

  /** Two requests send the two chunks once each, nothing fails, and both finish. The first counted one chunk,
      the second completed the upload, and then the first stores its progress: the file is there and the
      status stays at uploading. */
  lemma LateProgressOverwrites() returns (ts: seq<Turn>)
    ensures Fresh(HALVES, ARRIVED) && FaultFree(ts)
    ensures Run(HALVES, ARRIVED, ts) == Pair(MERGED.(status := Uploading), Done(Partial(1, 2)), Done(Complete))
    ensures MERGED.links == 1
  {
    FirstCountsOne();
    SecondMerges();
    FirstNotesLate();
    RunNothing(HALVES, ARRIVED);
    hide Run, Reaches;
    ts := BurstFirst(HALVES, ARRIVED, [], OPEN, Arrived, Arrived, HALF, Noting(1));
    ts := BurstSecond(HALVES, ARRIVED, ts, HALF, Arrived, Noting(1), MERGED, Done(Complete));
    ts := BurstFirst(HALVES, ARRIVED, ts, MERGED, Noting(1), Done(Complete), MERGED.(status := Uploading), Done(Partial(1, 2)));
  }

  lemma RunNothing(reqs: Requests, s: System)
    requires WellTyped(reqs, s)
    ensures Run(reqs, s, []) == s
  {
  }

  // ----- a re-send can create a second file -----

  const TWICE: Requests := map[0 := Request(P, 0, 1, [1, 2]), 1 := Request(P, 0, 1, [1, 2])]

  const ONCE: Slot := OPEN.(status := Completed, cached := false, infos := [Stored(2, [1, 2])], links := 1)

  lemma SecondEnters() returns (ts: seq<Turn>)
    ensures FaultFree(ts) && Run(TWICE, ARRIVED, ts) == Pair(OPEN, Arrived, Admitted)
  {
    var q := TWICE[1];
    Stay(q, NO_FAULTS, (OPEN, Admitted));
    StepThen(q, NO_FAULTS, (OPEN, Arrived), (OPEN, Admitted));
    RunNothing(TWICE, ARRIVED);
    hide Run, Reaches;
    ts := BurstSecond(TWICE, ARRIVED, [], OPEN, Arrived, Arrived, OPEN, Admitted);
  }

  lemma FirstCompletes() returns (ts: seq<Turn>)
    ensures FaultFree(ts) && Run(TWICE, ARRIVED, ts) == Pair(ONCE, Done(Complete), Admitted)
  {
    ts := SecondEnters();
    OneChunk(OPEN);
    SoloIsUploadChunk(TWICE[0], NO_FAULTS, OPEN);
    hide Run, Reaches;
    assert OPEN.infos + [Stored(2, [1, 2])] == ONCE.infos;
    ts := BurstFirst(TWICE, ARRIVED, ts, OPEN, Arrived, Admitted, ONCE, Done(Complete));
  }

  lemma SecondCompletes(twice: Slot)
    requires twice == ONCE.(infos := ONCE.infos + ONCE.infos, links := 2)
    ensures Reaches(TWICE[1], NO_FAULTS, (ONCE, Admitted), (twice, Done(Complete)))
  {
    OneChunk(ONCE);
    hide AdmittedCall, Reaches;
    SoloIsAdmittedCall(TWICE[1], NO_FAULTS, ONCE);
  }

  /** The only chunk is sent twice at the same time and nothing fails. The second request has read the cached
      precheck before the first completes, makes the temp directory anew, and merges again. */
  lemma ResendCreatesTwice() returns (ts: seq<Turn>)
    ensures Fresh(TWICE, ARRIVED) && FaultFree(ts)
    ensures Run(TWICE, ARRIVED, ts)
            == Pair(ONCE.(infos := ONCE.infos + ONCE.infos, links := 2), Done(Complete), Done(Complete))
  {
    var twice := ONCE.(infos := ONCE.infos + ONCE.infos, links := 2);
    ts := FirstCompletes();
    SecondCompletes(twice);
    hide Run, Reaches;
    ts := BurstSecond(TWICE, ARRIVED, ts, ONCE, Admitted, Done(Complete), twice, Done(Complete));
  }

  /** What one admitted call with the only chunk does to a session without a temp directory. */
  lemma OneChunk(s: Slot)
    requires s.temp.None? && !s.locked
    ensures AdmittedCall(s, Call(Chunk(0, 1), [1, 2]), NO_FAULTS)
            == (s.(status := Completed, cached := false, infos := s.infos + [Stored(s.fileSize, [1, 2])], links := s.links + 1), Complete)
  {
    var files: ChunkFiles := map[0 := [1, 2]];
    assert map[][0 := [1, 2]] == files;
    assert CountPresent(files, {}, 0) == 0 && CountPresent(files, {}, 1) == 1;
    assert Join(files, 0) == [] && Join(files, 1) == [1, 2];
    CopiedExactly(Some(files), 1, None);
  }
}
