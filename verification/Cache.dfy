/** The in-memory TTL cache of pkg/cache/memory.go, and the plain timed map it must agree with. */
module Cache {
  import opened Basics

  const SECOND: int := 1_000_000_000
  const FOREVER: int := 100 * 365 * 24 * 3600 * SECOND

  datatype Entry<V> = Entry(value: V, expiresAt: int) {
    predicate Expired(now: int) {
      now > expiresAt
    }
  }

  /** The life a Set gives its entry, in nanoseconds of Go's 64-bit Duration. */
  function Ttl(seconds: int): int {
    if seconds <= 0 then FOREVER else Wrap64(seconds * SECOND)
  }

  type Items<V> = map<string, Entry<V>>

  datatype Lookup<V> = Hit(value: V) | NotFound | Expired {
    /** What a caller can act on: the value, or an error. */
    function Answer(): Option<V> {
      if Hit? then Some(value) else None
    }
  }

  datatype Action<V> =
    | Set(key: string, value: V, seconds: int)
    | Get(key: string)
    | Delete(key: string)
    | Clear
    | Sweep

  datatype Event<V> = Event(now: int, act: Action<V>)

  // ----- the cache with its two kinds of eviction -----

  function Find<V>(items: Items<V>, key: string, now: int): Lookup<V> {
    if key !in items then NotFound
    else if items[key].Expired(now) then Lookup.Expired
    else Hit(items[key].value)
  }

  function Live<V>(items: Items<V>, now: int): Items<V> {
    map k | k in items && !items[k].Expired(now) :: items[k]
  }

  function Evicting<V>(items: Items<V>, e: Event<V>): Items<V> {
    match e.act
    case Set(k, v, sec) => items[k := Entry(v, e.now + Ttl(sec))]
    case Get(k) => if Find(items, k, e.now).Expired? then items - {k} else items
    case Delete(k) => items - {k}
    case Clear => map[]
    case Sweep => Live(items, e.now)
  }

  class MemoryCache<V> {
    var items: Items<V>

    constructor ()
      ensures items == map[]
    {
      items := map[];
    }

    method Get(key: string, now: int) returns (r: Lookup<V>)
      modifies this
      ensures r == Find(old(items), key, now)
      ensures items == Evicting(old(items), Event(now, Action.Get(key)))
    {
      if key !in items {
        return NotFound;
      }
      var e := items[key];
      if e.Expired(now) {
        items := items - {key};
        return Lookup.Expired;
      }
      return Hit(e.value);
    }

    method Set(key: string, value: V, expireSeconds: int, now: int)
      modifies this
      ensures items == Evicting(old(items), Event(now, Action.Set(key, value, expireSeconds)))
    {
      var ttl := Wrap64(expireSeconds * SECOND);
      if expireSeconds <= 0 {
        ttl := FOREVER;
      }
      items := items[key := Entry(value, now + ttl)];
    }

    method Delete(key: string, now: int)
      modifies this
      ensures items == Evicting(old(items), Event(now, Action.Delete(key)))
    {
      items := items - {key};
    }

    method Clear(now: int)
      modifies this
      ensures items == Evicting(old(items), Event(now, Action.Clear))
    {
      items := map[];
    }

    method DeleteExpired(now: int)
      modifies this
      ensures items == Evicting(old(items), Event(now, Sweep))
    {
      var todo := items.Keys;
      while todo != {}
        invariant todo <= items.Keys <= old(items).Keys
        invariant forall k <- items :: items[k] == old(items)[k]
        invariant forall k <- old(items) :: k in todo || (k in items <==> !old(items)[k].Expired(now))
        decreases todo
      {
        var k :| k in todo;
        if items[k].Expired(now) {
          items := items - {k};
        }
        todo := todo - {k};
      }
    }
  }

  // ----- the map that never evicts -----

  function Timed<V>(m: Items<V>, e: Event<V>): Items<V> {
    match e.act
    case Set(k, v, sec) => m[k := Entry(v, e.now + Ttl(sec))]
    case Delete(k) => m - {k}
    case Clear => map[]
    case _ => m
  }

  datatype Policy = Evict | Keep

  function Next<V>(p: Policy, m: Items<V>, e: Event<V>): Items<V> {
    match p
    case Evict => Evicting(m, e)
    case Keep => Timed(m, e)
  }

  /** The answers of all the Gets of a history, in order. */
  function Answers<V>(p: Policy, m: Items<V>, es: seq<Event<V>>): seq<Option<V>>
    decreases |es|
  {
    if es == [] then []
    else
      (if es[0].act.Get? then [Find(m, es[0].act.key, es[0].now).Answer()] else [])
      + Answers(p, Next(p, m, es[0]), es[1..])
  }

  predicate Ordered<V>(es: seq<Event<V>>) {
    forall i, j | 0 <= i < j < |es| :: es[i].now <= es[j].now
  }

  /** Everything cached is in the timed map; what the cache lacks has already expired. */
  ghost predicate Agree<V>(items: Items<V>, m: Items<V>, now: int) {
    && (forall k <- items :: k in m && m[k] == items[k])
    && (forall k <- m :: k !in items ==> m[k].Expired(now))
  }

  lemma EventKeepsAgreement<V>(items: Items<V>, m: Items<V>, now: int, e: Event<V>)
    requires Agree(items, m, now) && now <= e.now
    ensures Agree(Evicting(items, e), Timed(m, e), e.now)
    ensures e.act.Get? ==> Find(items, e.act.key, e.now).Answer() == Find(m, e.act.key, e.now).Answer()
  {
  }

  lemma {:induction false} AgreementIsInvisible<V>(items: Items<V>, m: Items<V>, now: int, es: seq<Event<V>>)
    requires Agree(items, m, now) && Ordered(es)
    requires es != [] ==> now <= es[0].now
    ensures Answers(Evict, items, es) == Answers(Keep, m, es)
    decreases |es|
  {
    if es != [] {
      EventKeepsAgreement(items, m, now, es[0]);
      AgreementIsInvisible(Evicting(items, es[0]), Timed(m, es[0]), es[0].now, es[1..]);
    }
  }

  /** No history of calls and sweeps at non-decreasing times can tell the cache from the timed map. */
  lemma CacheRefinesTimedMap<V>(es: seq<Event<V>>)
    requires Ordered(es)
    ensures Answers<V>(Evict, map[], es) == Answers(Keep, map[], es)
  {
    if es != [] {
      AgreementIsInvisible(map[], map[], es[0].now, es);
    }
  }

  // ----- what a Get answers, told from the history alone -----

  /** The last Set of the key, unless it was deleted or everything cleared since: value, time and seconds. */
  function LastSet<V>(es: seq<Event<V>>, key: string): Option<(V, int, int)>
    decreases |es|
  {
    if es == [] then None
    else
      var last := es[|es| - 1];
      match last.act
      case Set(k, v, sec) => if k == key then Some((v, last.now, sec)) else LastSet(es[..|es| - 1], key)
      case Delete(k) => if k == key then None else LastSet(es[..|es| - 1], key)
      case Clear => None
      case _ => LastSet(es[..|es| - 1], key)
  }

  /** An entry set at `since` for `seconds` lives up to and including the nanosecond that its time runs out:
      the seconds in a 64-bit Duration, or 100 years when they are not positive. */
  predicate LivesAt(since: int, seconds: int, now: int) {
    if seconds <= 0 then now <= since + 100 * 365 * 24 * 3600 * 1_000_000_000
    else now <= since + Wrap64(seconds * 1_000_000_000)
  }

  function After<V>(p: Policy, m: Items<V>, es: seq<Event<V>>): Items<V>
    decreases |es|
  {
    if es == [] then m else After(p, Next(p, m, es[0]), es[1..])
  }

  lemma {:induction false} AfterSnoc<V>(p: Policy, m: Items<V>, es: seq<Event<V>>, e: Event<V>)
    ensures After(p, m, es + [e]) == Next(p, After(p, m, es), e)
    ensures Answers(p, m, es + [e])
            == Answers(p, m, es) + if e.act.Get? then [Find(After(p, m, es), e.act.key, e.now).Answer()] else []
    decreases |es|
  {
    if es == [] {
      assert [] + [e] == [e] && [e][1..] == [];
      assert After(p, m, [e]) == After(p, Next(p, m, e), []);
      assert Answers(p, Next(p, m, e), []) == [];
    } else {
      assert (es + [e])[1..] == es[1..] + [e] && (es + [e])[0] == es[0];
      AfterSnoc(p, Next(p, m, es[0]), es[1..], e);
      hide Next;
    }
  }

  lemma {:induction false} TimedHoldsLastSet<V>(es: seq<Event<V>>, key: string)
    ensures var m, last := After(Keep, map[], es), LastSet(es, key);
            && (key in m <==> last.Some?)
            && (last.Some? ==> m[key] == Entry(last.value.0, last.value.1 + Ttl(last.value.2)))
    decreases |es|
  {
    if es != [] {
      var front, e := es[..|es| - 1], es[|es| - 1];
      assert es == front + [e];
      AfterSnoc(Keep, map[], front, e);
      TimedHoldsLastSet(front, key);
    }
  }

  /** However the cache has evicted: a Get is answered with the value last set for its key, if the key has not been
      deleted or cleared since and its time has not run out, and with an error otherwise. */
  lemma {:induction false} GetAnswersLastSet<V>(es: seq<Event<V>>, key: string, now: int)
    requires Ordered(es + [Event(now, Action.Get(key))])
    ensures var answers, last := Answers<V>(Evict, map[], es + [Event(now, Action.Get(key))]), LastSet(es, key);
            answers != [] && answers[|answers| - 1]
            == if last.Some? && LivesAt(last.value.1, last.value.2, now) then Some(last.value.0) else None
  {
    var e: Event<V> := Event(now, Action.Get(key));
    CacheRefinesTimedMap(es + [e]);
    AfterSnoc(Keep, map[], es, e);
    TimedHoldsLastSet(es, key);
  }

  /** A positive TTL is the requested number of seconds exactly when it fits a Duration. */
  lemma TtlExact(seconds: int)
    requires 0 < seconds <= MAX_INT64
    ensures Ttl(seconds) == seconds * SECOND <==> seconds <= 9_223_372_036
  {
    if seconds > 9_223_372_036 {
      assert seconds * SECOND > MAX_INT64;
    }
  }
}
