/** Concurrent use of the cache. `Get` takes the lock twice, once to read the entry and once to
    remove it when expired; other calls may run in between. The timed map is carried along as history. */
module CacheRaces {
  import opened Basics
  import opened Cache

  /** A Get that has left its read lock: what it saw, and which turn it read at. */
  datatype Pending<V> = Pending(key: string, seen: Option<Entry<V>>, at: nat)

  datatype Shared<V> = Shared(items: Items<V>, timed: Items<V>, pending: map<nat, Pending<V>>)

  datatype Move<V> =
    | Call(act: Action<V>)
    | Read(reader: nat, key: string)
    | Finish(reader: nat)

  datatype Turn<V> = Turn(now: int, move: Move<V>)

  function Peek<V>(items: Items<V>, key: string): Option<Entry<V>> {
    if key in items then Some(items[key]) else None
  }

  /** The second half of a Get: it judges the entry it saw, whatever the map holds now. */
  function Verdict<V>(p: Pending<V>, now: int): Lookup<V> {
    match p.seen
    case None => NotFound
    case Some(e) => if e.Expired(now) then Lookup.Expired else Hit(e.value)
  }

  function Step<V>(s: Shared<V>, t: Turn<V>, at: nat): Shared<V> {
    match t.move
    case Call(act) =>
      s.(items := Evicting(s.items, Event(t.now, act)), timed := Timed(s.timed, Event(t.now, act)))
    case Read(r, key) =>
      if r in s.pending then s else s.(pending := s.pending[r := Pending(key, Peek(s.items, key), at)])
    case Finish(r) =>
      if r !in s.pending then s
      else
        var p := s.pending[r];
        s.(items := if Verdict(p, t.now).Expired? then s.items - {p.key} else s.items,
           pending := s.pending - {r})
  }

  function After<V>(trace: seq<Turn<V>>, n: nat): Shared<V>
    requires n <= |trace|
  {
    if n == 0 then Shared(map[], map[], map[])
    else Step(After(trace, n - 1), trace[n - 1], n - 1)
  }

  predicate Ordered<V>(trace: seq<Turn<V>>) {
    forall i, j | 0 <= i < j < |trace| :: trace[i].now <= trace[j].now
  }

  /** Eviction only ever loses entries: what is cached is what the timed map holds. */
  lemma {:induction false} CachedIsTimed<V>(trace: seq<Turn<V>>, n: nat)
    requires n <= |trace|
    ensures forall k <- After(trace, n).items ::
              k in After(trace, n).timed && After(trace, n).timed[k] == After(trace, n).items[k]
  {
    if n > 0 {
      CachedIsTimed(trace, n - 1);
    }
  }

  lemma {:induction false} PendingRemembersItsRead<V>(trace: seq<Turn<V>>, n: nat, r: nat)
    requires n <= |trace| && r in After(trace, n).pending
    ensures var p := After(trace, n).pending[r];
            && p.at < n
            && trace[p.at].move == Read(r, p.key)
            && p.seen == Peek(After(trace, p.at).items, p.key)
  {
    var before := After(trace, n - 1);
    if r in before.pending {
      PendingRemembersItsRead(trace, n - 1, r);
    }
  }

  /** Every hit is the value the timed map held, unexpired, at the moment of the Get's read lock. */
  lemma HitLinearizesAtRead<V>(trace: seq<Turn<V>>, i: nat, r: nat)
    requires i < |trace| && Ordered(trace)
    requires trace[i].move == Finish(r) && r in After(trace, i).pending
    requires Verdict(After(trace, i).pending[r], trace[i].now).Hit?
    ensures var p := After(trace, i).pending[r];
            && p.at < i
            && trace[p.at].move == Read(r, p.key)
            && Find(After(trace, p.at).timed, p.key, trace[p.at].now) == Verdict(p, trace[i].now)
  {
    PendingRemembersItsRead(trace, i, r);
    CachedIsTimed(trace, After(trace, i).pending[r].at);
  }

  /** Every live entry of the timed map is still cached. */
  ghost predicate Complete<V>(s: Shared<V>, now: int) {
    forall k <- s.timed :: !s.timed[k].Expired(now) ==> k in s.items
  }

  /** The second lock section may throw away an entry that another call stored in between. Finishing a
      Get loses a live entry exactly when the entry it saw has expired while the one now cached has not. */
  lemma FinishKeepsCompleteExactly<V>(trace: seq<Turn<V>>, n: nat, r: nat)
    requires n < |trace| && trace[n].move == Finish(r) && r in After(trace, n).pending
    requires Complete(After(trace, n), trace[n].now)
    ensures var s, now := After(trace, n), trace[n].now;
            var p := s.pending[r];
            Complete(After(trace, n + 1), now)
            <==> !(Verdict(p, now).Expired? && p.key in s.items && !s.items[p.key].Expired(now))
  {
    CachedIsTimed(trace, n);
    var s, now := After(trace, n), trace[n].now;
    var p := s.pending[r];
    if Verdict(p, now).Expired? && p.key in s.items && !s.items[p.key].Expired(now) {
      assert p.key in After(trace, n + 1).timed && p.key !in After(trace, n + 1).items;
    }
  }

  /** No other turn loses a live entry. */
  lemma OtherTurnsKeepComplete<V>(s: Shared<V>, t: Turn<V>, at: nat)
    requires forall k <- s.items :: k in s.timed && s.timed[k] == s.items[k]
    requires Complete(s, t.now) && !t.move.Finish?
    ensures Complete(Step(s, t, at), t.now)
  {
  }

  /** The n-th turn finishes a Get that throws away a live entry. */
  predicate Loses<V>(trace: seq<Turn<V>>, n: nat)
    requires n < |trace|
  {
    && trace[n].move.Finish? && trace[n].move.reader in After(trace, n).pending
    && var p := After(trace, n).pending[trace[n].move.reader];
       Verdict(p, trace[n].now).Expired? && p.key in After(trace, n).items
       && !After(trace, n).items[p.key].Expired(trace[n].now)
  }

  lemma TurnKeepsCompleteExactly<V>(trace: seq<Turn<V>>, n: nat)
    requires n < |trace| && Complete(After(trace, n), trace[n].now)
    ensures Complete(After(trace, n + 1), trace[n].now) <==> !Loses(trace, n)
  {
    CachedIsTimed(trace, n);
    if trace[n].move.Finish? {
      if trace[n].move.reader in After(trace, n).pending {
        FinishKeepsCompleteExactly(trace, n, trace[n].move.reader);
      }
    } else {
      OtherTurnsKeepComplete(After(trace, n), trace[n], n);
    }
  }

  /** As long as no Get throws away a live entry, the cache holds every live entry of the timed map. */
  lemma {:induction false} CompleteUntilLoss<V>(trace: seq<Turn<V>>, n: nat)
    requires n < |trace| && Ordered(trace)
    requires forall i: nat | i < n :: !Loses(trace, i)
    ensures Complete(After(trace, n), trace[n].now)
  {
    if n > 0 {
      CompleteUntilLoss(trace, n - 1);
      TurnKeepsCompleteExactly(trace, n - 1);
    }
  }

  /** Then misses are linearizable too: every Get, hit or miss, gives the answer of the timed map as it
      was at the read lock, judged at the time of the Get's own clock; a key not found was absent or
      expired already at the read lock. */
  lemma AnswerLinearizesAtRead<V>(trace: seq<Turn<V>>, i: nat, r: nat)
    requires i < |trace| && Ordered(trace)
    requires trace[i].move == Finish(r) && r in After(trace, i).pending
    requires forall j: nat | j < i && j < After(trace, i).pending[r].at :: !Loses(trace, j)
    ensures var p := After(trace, i).pending[r];
            && p.at < i
            && Find(After(trace, p.at).timed, p.key, trace[i].now).Answer() == Verdict(p, trace[i].now).Answer()
            && (Verdict(p, trace[i].now).NotFound? ==> Find(After(trace, p.at).timed, p.key, trace[p.at].now).Answer().None?)
  {
    PendingRemembersItsRead(trace, i, r);
    var p := After(trace, i).pending[r];
    CachedIsTimed(trace, p.at);
    CompleteUntilLoss(trace, p.at);
  }

  /** A run in which a freshly stored value is lost: 1 second of life, then a re-Set behind a stale Get. */
  lemma LostSetWitness()
    ensures var trace := [Turn(0, Call(Set("k", 1, 1))), Turn(5 * SECOND, Read(0, "k")),
                          Turn(5 * SECOND, Call(Set("k", 2, 60))), Turn(5 * SECOND, Finish(0))];
            && Ordered(trace)
            && Find(After(trace, 4).timed, "k", 6 * SECOND) == Hit(2)
            && Find(After(trace, 4).items, "k", 6 * SECOND) == NotFound
  {
    var trace: seq<Turn<int>> := [Turn(0, Call(Set("k", 1, 1))), Turn(5 * SECOND, Read(0, "k")),
                  Turn(5 * SECOND, Call(Set("k", 2, 60))), Turn(5 * SECOND, Finish(0))];
    var s0 := After(trace, 0);
    var s1 := Step(s0, trace[0], 0);
    var s2 := Step(s1, trace[1], 1);
    var s3 := Step(s2, trace[2], 2);
    var s4 := Step(s3, trace[3], 3);
    assert After(trace, 1) == s1;
    assert After(trace, 2) == s2;
    assert After(trace, 3) == s3;
    assert After(trace, 4) == s4;
  }
}
