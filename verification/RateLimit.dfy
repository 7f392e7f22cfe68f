/** The in-process sliding-window rate limiter: a bounded queue of grant times per key and a cleaner
    that deletes idle keys, against an unbounded log of every grant. */
module RateLimit {

  /** At most `max` grants within `duration` seconds. */
  datatype Limit = Limit(max: nat, duration: int)

  /** A limit of zero still grants one request per window. */
  function EffectiveMax(limit: Limit): (r: nat)
    ensures r >= 1 && (limit.max >= 1 <==> r == limit.max)
  {
    if limit.max < 1 then 1 else limit.max
  }

  type Store = map<string, seq<int>>

  /** No key is stored with an empty queue. */
  ghost predicate Sound(store: Store) {
    forall key :: key in store ==> store[key] != []
  }

  function RequestStep(store: Store, key: string, limit: Limit, now: int): (Store, bool)
    requires Sound(store)
  {
    if key !in store then
      (store[key := [now]], true)
    else
      var queue := store[key];
      if |queue| < limit.max then
        (store[key := queue + [now]], true)
      else if now - queue[0] >= limit.duration then
        (store[key := queue[1..] + [now]], true)
      else
        (store, false)
  }

  predicate Idle(queue: seq<int>, now: int, expiration: int) {
    queue == [] || now - queue[|queue| - 1] > expiration
  }

  function Cleared(store: Store, now: int, expiration: int): Store {
    map key | key in store && !Idle(store[key], now, expiration) :: store[key]
  }

  class InMemoryRateLimiter {
    var store: Store
    const expiration: int

    ghost predicate Valid()
      reads this
    {
      Sound(store)
    }

    constructor (expiration: int)
      ensures Valid() && store == map[] && this.expiration == expiration
    {
      store := map[];
      this.expiration := expiration;
    }

    method Request(key: string, limit: Limit, now: int) returns (granted: bool)
      requires Valid()
      modifies this`store
      ensures Valid()
      ensures (store, granted) == RequestStep(old(store), key, limit, now)
    {
      if key in store {
        var queue := store[key];
        if |queue| < limit.max {
          queue := queue + [now];
          store := store[key := queue];
          return true;
        } else {
          if now - queue[0] >= limit.duration {
            queue := queue[1..];
            queue := queue + [now];
            store := store[key := queue];
            return true;
          } else {
            return false;
          }
        }
      } else {
        var s: seq<int> := [];
        s := s + [now];
        assert s == [now];
        store := store[key := s];
      }
      return true;
    }

    /** One pass of the cleaner: the idle keys are deleted one by one. */
    method ClearExpiredItems(now: int)
      requires Valid()
      modifies this`store
      ensures Valid()
      ensures store == Cleared(old(store), now, expiration)
    {
      var rest := store.Keys;
      while rest != {}
        invariant rest <= store.Keys <= old(store).Keys
        invariant forall key :: key in store <==>
                    key in old(store) && (key in rest || !Idle(old(store)[key], now, expiration))
        invariant forall key :: key in store ==> store[key] == old(store)[key]
        decreases rest
      {
        var key :| key in rest;
        var queue := store[key];
        var size := |queue|;
        if size == 0 || now - queue[size - 1] > expiration {
          store := store - {key};
        }
        rest := rest - {key};
      }
    }
  }

  // ----- the unbounded log -----

  /** How many of the grants are younger than `duration` at `now`. */
  function Young(grants: seq<int>, now: int, duration: int): nat {
    if grants == [] then
      0
    else
      Young(grants[..|grants| - 1], now, duration) + (if now - grants[|grants| - 1] < duration then 1 else 0)
  }

  function GrantsOf(log: Store, key: string): seq<int> {
    if key in log then log[key] else []
  }

  /** Grants exactly when fewer than the maximum are younger than the duration; keeps everything. */
  function LogStep(log: Store, key: string, limit: Limit, now: int): (Store, bool) {
    var grants := GrantsOf(log, key);
    if Young(grants, now, limit.duration) < EffectiveMax(limit) then
      (log[key := grants + [now]], true)
    else
      (log, false)
  }

  // ----- runs -----

  datatype Event =
    | Ask(key: string, limit: Limit, now: int)
    | Clear(now: int)

  /** The times do not decrease. */
  ghost predicate WellTimed(events: seq<Event>) {
    forall i, j :: 0 <= i < j < |events| ==> events[i].now <= events[j].now
  }

  predicate AsksFor(e: Event, key: string) {
    e.Ask? && e.key == key
  }

  /** After asks with the limit `earlier` the queue still decides for the limit `later`: the maximum is
      the same, or it grows and the window does not. */
  predicate Compatible(earlier: Limit, later: Limit) {
    || later.duration <= 0
    || EffectiveMax(earlier) == EffectiveMax(later)
    || (EffectiveMax(earlier) < EffectiveMax(later) && later.duration <= earlier.duration)
  }

  /** The limit may follow those of the asks for the key before event `k`. */
  ghost predicate Follows(events: seq<Event>, key: string, k: nat, limit: Limit)
    requires k <= |events|
  {
    forall j :: 0 <= j < k && AsksFor(events[j], key) ==> Compatible(events[j].limit, limit)
  }

  /** Before event `k` every limit of the key fits the expiration and may follow the earlier ones. */
  ghost predicate Fits(events: seq<Event>, expiration: int, key: string, k: nat)
    requires k <= |events|
  {
    forall j :: 0 <= j < k && AsksFor(events[j], key) ==>
      events[j].limit.duration <= expiration + 1 && Follows(events, key, j, events[j].limit)
  }

  function StateAt(events: seq<Event>, expiration: int, k: nat): (r: Store)
    requires k <= |events|
    ensures Sound(r)
  {
    if k == 0 then
      map[]
    else
      var before, e := StateAt(events, expiration, k - 1), events[k - 1];
      match e
      case Ask(key, limit, now) => RequestStep(before, key, limit, now).0
      case Clear(now) => Cleared(before, now, expiration)
  }

  function LogAt(events: seq<Event>, k: nat): Store
    requires k <= |events|
  {
    if k == 0 then
      map[]
    else if events[k - 1].Ask? then
      LogStep(LogAt(events, k - 1), events[k - 1].key, events[k - 1].limit, events[k - 1].now).0
    else
      LogAt(events, k - 1)
  }

  /** What the limiter answers at event `k`. */
  predicate Granted(events: seq<Event>, expiration: int, k: nat)
    requires k < |events| && events[k].Ask?
  {
    RequestStep(StateAt(events, expiration, k), events[k].key, events[k].limit, events[k].now).1
  }

  /** What the unbounded log answers at event `k`. */
  predicate LogGranted(events: seq<Event>, k: nat)
    requires k < |events| && events[k].Ask?
  {
    LogStep(LogAt(events, k), events[k].key, events[k].limit, events[k].now).1
  }

  ghost predicate SortedUpTo(grants: seq<int>, now: int) {
    && (forall i, j :: 0 <= i < j < |grants| ==> grants[i] <= grants[j])
    && (forall i :: 0 <= i < |grants| ==> grants[i] <= now)
  }

  ghost predicate AllOld(grants: seq<int>, now: int, duration: int) {
    forall i :: 0 <= i < |grants| ==> now - grants[i] >= duration
  }

  lemma {:induction false} YoungSplit(a: seq<int>, b: seq<int>, now: int, duration: int)
    ensures Young(a + b, now, duration) == Young(a, now, duration) + Young(b, now, duration)
  {
    if b == [] {
      assert a + b == a;
    } else {
      YoungSplit(a, b[..|b| - 1], now, duration);
      assert (a + b)[..|a + b| - 1] == a + b[..|b| - 1];
    }
  }

  lemma {:induction false} YoungBounds(grants: seq<int>, now: int, duration: int)
    ensures Young(grants, now, duration) <= |grants|
    ensures AllOld(grants, now, duration) ==> Young(grants, now, duration) == 0
    ensures (forall i :: 0 <= i < |grants| ==> now - grants[i] < duration) ==> Young(grants, now, duration) == |grants|
  {
    if grants != [] {
      YoungBounds(grants[..|grants| - 1], now, duration);
    }
  }

  /** The queue is the end of the log, and what the queue lacks no longer counts at `now`. */
  ghost predicate Mirrors(store: Store, key: string, limit: Limit, grants: seq<int>, now: int) {
    && SortedUpTo(grants, now)
    && (if key in store then
          var queue := store[key];
          && queue != []
          && |queue| <= EffectiveMax(limit)
          && |queue| <= |grants|
          && grants[|grants| - |queue|..] == queue
          && (|queue| == EffectiveMax(limit) || AllOld(grants[..|grants| - |queue|], now, limit.duration))
        else
          AllOld(grants, now, limit.duration))
  }

  lemma MirrorsLater(store: Store, key: string, limit: Limit, grants: seq<int>, now: int, later: int)
    requires Mirrors(store, key, limit, grants, now) && now <= later
    ensures Mirrors(store, key, limit, grants, later)
  {
  }

  lemma ShortQueueDecides(prefix: seq<int>, queue: seq<int>, now: int, duration: int, n: nat)
    requires AllOld(prefix, now, duration) && |queue| < n
    ensures Young(prefix + queue, now, duration) < n
  {
    YoungSplit(prefix, queue, now, duration);
    YoungBounds(prefix, now, duration);
    YoungBounds(queue, now, duration);
  }

  lemma FullQueueDecides(prefix: seq<int>, queue: seq<int>, now: int, duration: int)
    requires queue != []
    requires forall i :: 0 <= i < |prefix| ==> prefix[i] <= queue[0]
    requires forall i :: 0 <= i < |queue| ==> queue[0] <= queue[i]
    ensures Young(prefix + queue, now, duration) < |queue| <==> now - queue[0] >= duration
  {
    YoungSplit(prefix, queue, now, duration);
    YoungBounds(queue, now, duration);
    if now - queue[0] >= duration {
      YoungBounds(prefix, now, duration);
      assert queue == [queue[0]] + queue[1..];
      YoungSplit([queue[0]], queue[1..], now, duration);
      YoungBounds([queue[0]], now, duration);
      YoungBounds(queue[1..], now, duration);
    }
  }

  /** A queue that mirrors the log decides as the log does. */
  lemma SameDecision(store: Store, key: string, limit: Limit, grants: seq<int>, now: int)
    requires Sound(store) && Mirrors(store, key, limit, grants, now)
    ensures RequestStep(store, key, limit, now).1 <==> Young(grants, now, limit.duration) < EffectiveMax(limit)
  {
    hide Young;
    if key !in store {
      YoungBounds(grants, now, limit.duration);
    } else {
      var queue := store[key];
      var cut := |grants| - |queue|;
      assert grants == grants[..cut] + queue;
      if |queue| == EffectiveMax(limit) {
        assert queue[0] == grants[cut];
        assert forall i :: 0 <= i < |queue| ==> queue[i] == grants[cut + i];
        FullQueueDecides(grants[..cut], queue, now, limit.duration);
      } else {
        ShortQueueDecides(grants[..cut], queue, now, limit.duration, EffectiveMax(limit));
      }
    }
  }

  /** A grant of an ask with a limit that `limit` may follow. */
  lemma GrantKeepsMirror(store: Store, key: string, asked: Limit, limit: Limit, grants: seq<int>, now: int)
    requires Sound(store) && Mirrors(store, key, limit, grants, now)
    requires Compatible(asked, limit) && limit.duration > 0
    requires RequestStep(store, key, asked, now).1
    ensures Mirrors(RequestStep(store, key, asked, now).0, key, limit, grants + [now], now)
  {
    var store' := RequestStep(store, key, asked, now).0;
    var queue', grants' := store'[key], grants + [now];
    if key !in store {
      assert grants'[|grants|..] == [now];
      assert grants'[..|grants|] == grants;
    } else {
      var queue := store[key];
      var cut := |grants| - |queue|;
      if |queue| < asked.max {
        assert grants'[cut..] == queue + [now];
        assert grants'[..cut] == grants[..cut];
      } else {
        assert grants'[cut + 1..] == grants[cut + 1..] + [now];
        assert grants[cut + 1..] == queue[1..];
        assert grants'[..cut + 1] == grants[..cut] + [queue[0]];
      }
    }
  }

  lemma ClearKeepsMirror(store: Store, key: string, limit: Limit, grants: seq<int>, now: int, expiration: int)
    requires Mirrors(store, key, limit, grants, now) && limit.duration <= expiration + 1
    ensures Mirrors(Cleared(store, now, expiration), key, limit, grants, now)
  {
    if key in store && Idle(store[key], now, expiration) {
      var queue := store[key];
      assert queue[|queue| - 1] == grants[|grants| - 1];
    }
  }

  /** A request leaves the queues of other keys alone, and a refusal changes nothing. */
  lemma RequestFrame(store: Store, other: string, otherLimit: Limit, now: int, key: string, limit: Limit,
                      grants: seq<int>)
    requires Sound(store) && Mirrors(store, key, limit, grants, now)
    requires other != key || !RequestStep(store, other, otherLimit, now).1
    ensures Mirrors(RequestStep(store, other, otherLimit, now).0, key, limit, grants, now)
  {
    hide AllOld, SortedUpTo;
  }

  lemma NothingMirrors(key: string, limit: Limit, now: int)
    ensures Mirrors(map[], key, limit, [], now)
  {
  }

  ghost predicate Past(times: seq<int>, now: int) {
    forall i :: 0 <= i < |times| ==> times[i] <= now
  }

  /** Everything stored or logged before event `k` is past. */
  lemma {:induction false} StoredIsPast(events: seq<Event>, expiration: int, key: string, k: nat, now: int)
    requires k <= |events| && forall j :: 0 <= j < k ==> events[j].now <= now
    ensures Past(GrantsOf(StateAt(events, expiration, k), key), now)
    ensures Past(GrantsOf(LogAt(events, k), key), now)
  {
    hide Young;
    if k > 0 {
      StoredIsPast(events, expiration, key, k - 1, now);
      var e := events[k - 1];
      if e.Ask? {
        assert e.now <= now;
        StepKeepsPast(StateAt(events, expiration, k - 1), LogAt(events, k - 1), e.key, e.limit, e.now, key, now);
      }
    }
  }

  lemma StepKeepsPast(store: Store, log: Store, asked: string, limit: Limit, time: int, key: string, now: int)
    requires Sound(store) && time <= now
    requires Past(GrantsOf(store, key), now) && Past(GrantsOf(log, key), now)
    ensures Past(GrantsOf(RequestStep(store, asked, limit, time).0, key), now)
    ensures Past(GrantsOf(LogStep(log, asked, limit, time).0, key), now)
  {
    hide Young;
    if asked == key {
      assert forall i :: 1 <= i < |GrantsOf(store, key)| ==> GrantsOf(store, key)[i] <= now;
    }
  }

  /** Without a window everything is granted. */
  lemma NoWindow(store: Store, log: Store, key: string, limit: Limit, now: int)
    requires Sound(store) && limit.duration <= 0
    requires Past(GrantsOf(store, key), now) && Past(GrantsOf(log, key), now)
    ensures RequestStep(store, key, limit, now).1 && LogStep(log, key, limit, now).1
  {
    hide Young;
    assert key in store ==> GrantsOf(store, key)[0] <= now;
    assert AllOld(GrantsOf(log, key), now, limit.duration);
    YoungBounds(GrantsOf(log, key), now, limit.duration);
  }

  lemma {:induction false} RunMirrors(events: seq<Event>, expiration: int, key: string, limit: Limit, k: nat, now: int)
    requires k <= |events| && WellTimed(events) && Fits(events, expiration, key, k)
    requires Follows(events, key, k, limit) && 0 < limit.duration <= expiration + 1
    requires forall j :: 0 <= j < k ==> events[j].now <= now
    ensures Mirrors(StateAt(events, expiration, k), key, limit, GrantsOf(LogAt(events, k), key), now)
    decreases k, 0
  {
    hide RequestStep, Cleared, Young, Mirrors, Compatible;
    if k > 0 {
      var e := events[k - 1];
      RunMirrors(events, expiration, key, limit, k - 1, e.now);
      var store, grants := StateAt(events, expiration, k - 1), GrantsOf(LogAt(events, k - 1), key);
      if AsksFor(e, key) {
        DecidesAsUnboundedLog(events, expiration, k - 1);
        if RequestStep(store, key, e.limit, e.now).1 {
          GrantKeepsMirror(store, key, e.limit, limit, grants, e.now);
        } else {
          RequestFrame(store, key, e.limit, e.now, key, limit, grants);
        }
      } else if e.Ask? {
        RequestFrame(store, e.key, e.limit, e.now, key, limit, grants);
      } else {
        ClearKeepsMirror(store, key, limit, grants, e.now, expiration);
      }
      MirrorsLater(StateAt(events, expiration, k), key, limit, GrantsOf(LogAt(events, k), key), e.now, now);
    } else {
      NothingMirrors(key, limit, now);
    }
  }

  /** The limiter decides as the unbounded log does, with the cleaner running at any times and with
      limits that change compatibly. */
  lemma {:induction false} DecidesAsUnboundedLog(events: seq<Event>, expiration: int, k: nat)
    requires k < |events| && events[k].Ask? && WellTimed(events)
    requires Fits(events, expiration, events[k].key, k + 1)
    ensures Granted(events, expiration, k) <==> LogGranted(events, k)
    decreases k, 1
  {
    hide Young, Mirrors, Compatible;
    var e := events[k];
    var store, grants := StateAt(events, expiration, k), GrantsOf(LogAt(events, k), e.key);
    if e.limit.duration <= 0 {
      StoredIsPast(events, expiration, e.key, k, e.now);
      NoWindow(store, LogAt(events, k), e.key, e.limit, e.now);
    } else {
      assert AsksFor(e, e.key);
      RunMirrors(events, expiration, e.key, e.limit, k, e.now);
      SameDecision(store, e.key, e.limit, grants, e.now);
    }
  }

  /** No `max + 1` consecutive grants of a key lie within less than the duration. */
  ghost predicate Spaced(grants: seq<int>, limit: Limit) {
    forall i, j :: 0 <= i && j == i + EffectiveMax(limit) && j < |grants| ==>
      grants[j] - grants[i] >= limit.duration
  }

  lemma GrantKeepsSpacing(grants: seq<int>, limit: Limit, now: int)
    requires SortedUpTo(grants, now) && Spaced(grants, limit)
    requires Young(grants, now, limit.duration) < EffectiveMax(limit)
    ensures Spaced(grants + [now], limit)
  {
    hide Young;
    var n := EffectiveMax(limit);
    if |grants| >= n {
      var cut := |grants| - n;
      assert grants == grants[..cut] + grants[cut..];
      assert forall i :: 0 <= i < n ==> grants[cut..][i] == grants[cut + i];
      FullQueueDecides(grants[..cut], grants[cut..], now, limit.duration);
    }
  }

  /** In the log of any run, any `max + 1` consecutive grants of a key span at least the duration. */
  lemma {:induction false} LogIsSpaced(events: seq<Event>, key: string, limit: Limit, k: nat, now: int)
    requires k <= |events| && WellTimed(events)
    requires forall j :: 0 <= j < |events| && events[j].Ask? && events[j].key == key ==> events[j].limit == limit
    requires forall j :: 0 <= j < k ==> events[j].now <= now
    ensures Spaced(GrantsOf(LogAt(events, k), key), limit)
    ensures SortedUpTo(GrantsOf(LogAt(events, k), key), now)
  {
    hide Young;
    if k > 0 {
      var e := events[k - 1];
      LogIsSpaced(events, key, limit, k - 1, e.now);
      var grants := GrantsOf(LogAt(events, k - 1), key);
      if e.Ask? && e.key == key && Young(grants, e.now, limit.duration) < EffectiveMax(limit) {
        GrantKeepsSpacing(grants, limit, e.now);
      }
    }
  }

  // ----- the grants that the limiter issues -----

  /** The times at which the limiter itself grants a request of the key, in order. */
  function Issued(events: seq<Event>, expiration: int, key: string, k: nat): seq<int>
    requires k <= |events|
  {
    if k == 0 then
      []
    else
      var e, before := events[k - 1], Issued(events, expiration, key, k - 1);
      if e.Ask? && e.key == key && Granted(events, expiration, k - 1) then before + [e.now] else before
  }

  /** With limits that fit, the log is the log of the grants that the limiter issues. */
  lemma {:induction false} IssuedIsLog(events: seq<Event>, expiration: int, key: string, k: nat)
    requires k <= |events| && WellTimed(events) && Fits(events, expiration, key, k)
    ensures Issued(events, expiration, key, k) == GrantsOf(LogAt(events, k), key)
  {
    hide Granted, WellTimed, Young, Follows;
    if k > 0 {
      IssuedIsLog(events, expiration, key, k - 1);
      if AsksFor(events[k - 1], key) {
        DecidesAsUnboundedLog(events, expiration, k - 1);
      }
    }
  }

  /** A request is refused exactly when the limiter has already issued the maximum of grants for its
      key that are younger than the duration. */
  lemma RefusesExactlyWhenFull(events: seq<Event>, expiration: int, k: nat)
    requires k < |events| && events[k].Ask? && WellTimed(events)
    requires Fits(events, expiration, events[k].key, k + 1)
    ensures var e := events[k];
            !Granted(events, expiration, k)
            <==> Young(Issued(events, expiration, e.key, k), e.now, e.limit.duration) >= EffectiveMax(e.limit)
  {
    hide Granted, Young, Issued;
    DecidesAsUnboundedLog(events, expiration, k);
    IssuedIsLog(events, expiration, events[k].key, k);
  }

  // ----- runs that fill a queue -----

  /** `n` requests of one key at the same time. */
  function Asks(limit: Limit, now: int, n: nat): (r: seq<Event>)
    ensures |r| == n && forall j :: 0 <= j < n ==> r[j] == Ask("key", limit, now)
  {
    if n == 0 then [] else Asks(limit, now, n - 1) + [Ask("key", limit, now)]
  }

  function Repeat(time: int, n: nat): (r: seq<int>)
    ensures |r| == n && forall j :: 0 <= j < n ==> r[j] == time
  {
    if n == 0 then [] else Repeat(time, n - 1) + [time]
  }

  ghost predicate Holds(store: Store, queue: seq<int>) {
    store == if queue == [] then map[] else map["key" := queue]
  }

  lemma HoldsNext(store: Store, queue: seq<int>, now: int)
    requires Holds(store, queue)
    ensures Holds(store["key" := queue + [now]], queue + [now])
    ensures GrantsOf(store, "key") == queue
  {
  }

  lemma FillStep(store: Store, log: Store, limit: Limit, now: int, queue: seq<int>, grants: seq<int>)
    requires Sound(store) && Holds(store, queue) && Holds(log, grants)
    requires |queue| < EffectiveMax(limit) && |grants| < EffectiveMax(limit)
    ensures RequestStep(store, "key", limit, now).1 && Holds(RequestStep(store, "key", limit, now).0, queue + [now])
    ensures LogStep(log, "key", limit, now).1 && Holds(LogStep(log, "key", limit, now).0, grants + [now])
  {
    YoungBounds(grants, now, limit.duration);
    assert queue == [] ==> queue + [now] == [now];
    HoldsNext(store, queue, now);
    HoldsNext(log, grants, now);
  }

  /** Below the maximum `n` requests from event `first` on are all granted, by the limiter and by the
      log. */
  lemma {:induction false} FillingUp(events: seq<Event>, limit: Limit, expiration: int, now: int, first: nat, n: nat,
                                     queue: seq<int>, grants: seq<int>)
    requires first + n <= |events| && forall j :: first <= j < first + n ==> events[j] == Ask("key", limit, now)
    requires Holds(StateAt(events, expiration, first), queue) && Holds(LogAt(events, first), grants)
    requires |queue| + n <= EffectiveMax(limit) && |grants| + n <= EffectiveMax(limit)
    ensures Holds(StateAt(events, expiration, first + n), queue + Repeat(now, n))
    ensures Holds(LogAt(events, first + n), grants + Repeat(now, n))
  {
    hide RequestStep, LogStep;
    if n == 0 {
      assert queue + Repeat(now, n) == queue && grants + Repeat(now, n) == grants;
    } else {
      var k := first + n - 1;
      FillingUp(events, limit, expiration, now, first, n - 1, queue, grants);
      var queue', grants' := queue + Repeat(now, n - 1), grants + Repeat(now, n - 1);
      FillStep(StateAt(events, expiration, k), LogAt(events, k), limit, now, queue', grants');
      assert queue + Repeat(now, n) == queue' + [now] && grants + Repeat(now, n) == grants' + [now];
    }
  }

  /** Filling the limit from the start. */
  lemma FillingFromStart(events: seq<Event>, limit: Limit, expiration: int, now: int, n: nat)
    requires n <= |events| && n <= EffectiveMax(limit)
    requires forall j :: 0 <= j < n ==> events[j] == Ask("key", limit, now)
    ensures Holds(StateAt(events, expiration, n), Repeat(now, n)) && Holds(LogAt(events, n), Repeat(now, n))
  {
    FillingUp(events, limit, expiration, now, 0, n, [], []);
    assert [] + Repeat(now, n) == Repeat(now, n);
  }

  // ----- when the cleaner runs too early -----

  /** The limit is filled at time 0, the cleaner runs, and the same key asks again. */
  function EarlyClear(limit: Limit, expiration: int): seq<Event> {
    Asks(limit, 0, EffectiveMax(limit)) + [Clear(expiration + 1), Ask("key", limit, expiration + 1)]
  }

  lemma AfterEarlyClear(store: Store, log: Store, limit: Limit, expiration: int)
    requires var full := Repeat(0, EffectiveMax(limit)); Sound(store) && Holds(store, full) && Holds(log, full)
    requires expiration >= 0 && limit.duration > expiration + 1
    ensures Cleared(store, expiration + 1, expiration) == map[]
    ensures !LogStep(log, "key", limit, expiration + 1).1
  {
    YoungBounds(Repeat(0, EffectiveMax(limit)), expiration + 1, limit.duration);
  }

  /** When the duration exceeds the expiration by more than one second, the cleaner can delete grants
      that still count: the limiter then grants what the log refuses. */
  lemma EarlyClearIsVisible(limit: Limit, expiration: int)
    requires expiration >= 0 && limit.duration > expiration + 1
    ensures var events, k := EarlyClear(limit, expiration), EffectiveMax(limit) + 1;
            && WellTimed(events) && |events| == k + 1 && events[k].Ask?
            && Granted(events, expiration, k) && !LogGranted(events, k)
  {
    hide LogStep, Cleared;
    var events, n := EarlyClear(limit, expiration), EffectiveMax(limit);
    FillingFromStart(events, limit, expiration, 0, n);
    AfterEarlyClear(StateAt(events, expiration, n), LogAt(events, n), limit, expiration);
    assert events[n] == Clear(expiration + 1) && events[n + 1] == Ask("key", limit, expiration + 1);
    assert StateAt(events, expiration, n + 1) == map[];
    assert LogAt(events, n + 1) == LogAt(events, n);
  }

  predicate AsksAt(events: seq<Event>, k: nat) {
    k < |events| && events[k].Ask?
  }

  ghost predicate SameLimit(events: seq<Event>, limit: Limit) {
    forall j :: 0 <= j < |events| && events[j].Ask? ==> events[j].limit == limit
  }

  /** One limit for every request. */
  lemma SameLimitFits(events: seq<Event>, limit: Limit, expiration: int, key: string)
    requires SameLimit(events, limit) && limit.duration <= expiration + 1
    ensures forall k: nat :: k <= |events| ==> Fits(events, expiration, key, k)
  {
  }

  /** Eviction never changes an answer, on any run, exactly when the duration is at most one second
      longer than the expiration. */
  lemma EvictionInvisibleIff(limit: Limit, expiration: int)
    requires expiration >= 0
    ensures limit.duration <= expiration + 1 <==>
            forall events, k :: SameLimit(events, limit) && WellTimed(events) && AsksAt(events, k) ==>
              (Granted(events, expiration, k) <==> LogGranted(events, k))
  {
    if limit.duration <= expiration + 1 {
      forall events: seq<Event>, k: nat | SameLimit(events, limit) && WellTimed(events) && AsksAt(events, k)
        ensures Granted(events, expiration, k) <==> LogGranted(events, k)
      {
        SameLimitFits(events, limit, expiration, events[k].key);
        DecidesAsUnboundedLog(events, expiration, k);
      }
    } else {
      EarlyClearIsVisible(limit, expiration);
      assert SameLimit(EarlyClear(limit, expiration), limit);
      assert AsksAt(EarlyClear(limit, expiration), EffectiveMax(limit) + 1);
    }
  }

  // ----- when the limit of a key changes -----

  /** Every request before event `j` comes with the limit `a`, every later one with the limit `b`. */
  ghost predicate ChangesLimit(events: seq<Event>, j: nat, a: Limit, b: Limit) {
    forall i :: 0 <= i < |events| && events[i].Ask? ==> events[i].limit == if i < j then a else b
  }

  lemma ChangeFits(events: seq<Event>, j: nat, a: Limit, b: Limit, expiration: int, key: string)
    requires ChangesLimit(events, j, a, b) && Compatible(a, b)
    requires a.duration <= expiration + 1 && b.duration <= expiration + 1
    ensures forall k: nat :: k <= |events| ==> Fits(events, expiration, key, k)
  {
  }

  /** One grant at time 0 and the others at time 1; the smaller limit asks when the first has left its
      window. */
  function Narrowing(a: Limit, b: Limit): seq<Event> {
    Asks(a, 0, 1) + Asks(a, 1, EffectiveMax(a) - 1) + [Ask("key", b, b.duration)]
  }

  lemma AfterNarrowing(store: Store, log: Store, a: Limit, b: Limit)
    requires EffectiveMax(b) < EffectiveMax(a) && b.duration > 0 && Sound(store)
    requires var grants := Repeat(0, 1) + Repeat(1, EffectiveMax(a) - 1); Holds(store, grants) && Holds(log, grants)
    ensures RequestStep(store, "key", b, b.duration).1 && !LogStep(log, "key", b, b.duration).1
  {
    var rest := Repeat(1, EffectiveMax(a) - 1);
    YoungSplit(Repeat(0, 1), rest, b.duration, b.duration);
    YoungBounds(rest, b.duration, b.duration);
  }

  lemma NarrowingIsVisible(a: Limit, b: Limit, expiration: int)
    requires EffectiveMax(b) < EffectiveMax(a) && b.duration > 0
    ensures var events, k := Narrowing(a, b), EffectiveMax(a);
            && WellTimed(events) && AsksAt(events, k) && ChangesLimit(events, k, a, b)
            && Granted(events, expiration, k) && !LogGranted(events, k)
  {
    hide RequestStep, LogStep;
    var events, n := Narrowing(a, b), EffectiveMax(a);
    assert events[n] == Ask("key", b, b.duration);
    FillingFromStart(events, a, expiration, 0, 1);
    FillingUp(events, a, expiration, 1, 1, n - 1, Repeat(0, 1), Repeat(0, 1));
    AfterNarrowing(StateAt(events, expiration, n), LogAt(events, n), a, b);
  }

  /** The limit is filled at time 0 and asked once more when its window has passed; then the larger
      limit asks until it must be full. */
  function Widening(a: Limit, b: Limit): seq<Event>
    requires EffectiveMax(a) <= EffectiveMax(b)
  {
    var later := WindowEnd(a);
    Asks(a, 0, EffectiveMax(a)) + Asks(a, later, 1) + Asks(b, later, EffectiveMax(b) - EffectiveMax(a))
  }

  function WindowEnd(limit: Limit): nat {
    if limit.duration > 0 then limit.duration else 0
  }

  lemma WideningShifts(store: Store, limit: Limit)
    requires Sound(store) && Holds(store, Repeat(0, EffectiveMax(limit)))
    ensures Holds(RequestStep(store, "key", limit, WindowEnd(limit)).0,
                  Repeat(0, EffectiveMax(limit) - 1) + [WindowEnd(limit)])
  {
    var n, now := EffectiveMax(limit), WindowEnd(limit);
    var full := Repeat(0, n);
    var queue := full[1..] + [now];
    assert store["key"] == full && |full| >= limit.max && now - full[0] >= limit.duration;
    assert RequestStep(store, "key", limit, now).0 == store["key" := queue];
    assert full[1..] == Repeat(0, n - 1);
    MapOfOne(store, full, queue);
  }

  lemma WideningLogs(log: Store, limit: Limit)
    requires Holds(log, Repeat(0, EffectiveMax(limit)))
    ensures Holds(LogStep(log, "key", limit, WindowEnd(limit)).0,
                  Repeat(0, EffectiveMax(limit)) + [WindowEnd(limit)])
  {
    hide Young, Repeat;
    var n, now := EffectiveMax(limit), WindowEnd(limit);
    var full := Repeat(0, n);
    YoungBounds(full, now, limit.duration);
    MapOfOne(log, full, full + [now]);
  }

  lemma MapOfOne(store: Store, queue: seq<int>, next: seq<int>)
    requires queue != [] && next != [] && Holds(store, queue)
    ensures Holds(store["key" := next], next)
  {
  }

  lemma AfterWidening(store: Store, log: Store, limit: Limit, now: int, queue: seq<int>, grants: seq<int>)
    requires Sound(store) && Holds(store, queue) && Holds(log, grants)
    requires |queue| < EffectiveMax(limit) <= |grants|
    requires forall i :: 0 <= i < |grants| ==> now - grants[i] < limit.duration
    ensures RequestStep(store, "key", limit, now).1 && !LogStep(log, "key", limit, now).1
  {
    YoungBounds(grants, now, limit.duration);
  }

  lemma WideningIsVisible(a: Limit, b: Limit, expiration: int)
    requires EffectiveMax(a) < EffectiveMax(b) && b.duration > 0 && b.duration > a.duration
    ensures var events, k := Widening(a, b), EffectiveMax(b);
            && WellTimed(events) && AsksAt(events, k) && ChangesLimit(events, EffectiveMax(a) + 1, a, b)
            && Granted(events, expiration, k) && !LogGranted(events, k)
  {
    hide RequestStep, LogStep;
    var events, n, m, later := Widening(a, b), EffectiveMax(a), EffectiveMax(b), WindowEnd(a);
    FillingFromStart(events, a, expiration, 0, n);
    assert events[n] == Ask("key", a, later);
    WideningShifts(StateAt(events, expiration, n), a);
    WideningLogs(LogAt(events, n), a);
    var first := n + 1;
    var queue, grants := Repeat(0, n - 1) + [later], Repeat(0, n) + [later];
    assert forall j :: first <= j <= m ==> events[j] == Ask("key", b, later);
    FillingUp(events, b, expiration, later, first, m - first, queue, grants);
    AfterWidening(StateAt(events, expiration, m), LogAt(events, m), b, later,
                  queue + Repeat(later, m - first), grants + Repeat(later, m - first));
  }

  /** A change of the limit never changes an answer, on any run, exactly when both windows fit the
      expiration and the second limit may follow the first. */
  lemma LimitChangeIff(a: Limit, b: Limit, expiration: int)
    requires expiration >= 0
    ensures a.duration <= expiration + 1 && b.duration <= expiration + 1 && Compatible(a, b) <==>
            forall events, j, k :: ChangesLimit(events, j, a, b) && WellTimed(events) && AsksAt(events, k) ==>
              (Granted(events, expiration, k) <==> LogGranted(events, k))
  {
    hide Granted, LogGranted, WellTimed, Narrowing, Widening, Fits;
    if a.duration > expiration + 1 {
      OnlyOneLimit(a, a, b, expiration, |EarlyClear(a, expiration)|);
    } else if b.duration > expiration + 1 {
      OnlyOneLimit(b, a, b, expiration, 0);
    } else if !Compatible(a, b) {
      if EffectiveMax(b) < EffectiveMax(a) {
        NarrowingIsVisible(a, b, expiration);
      } else {
        WideningIsVisible(a, b, expiration);
      }
    } else {
      forall events: seq<Event>, j: nat, k: nat
        | ChangesLimit(events, j, a, b) && WellTimed(events) && AsksAt(events, k)
        ensures Granted(events, expiration, k) <==> LogGranted(events, k)
      {
        ChangeFits(events, j, a, b, expiration, events[k].key);
        DecidesAsUnboundedLog(events, expiration, k);
      }
    }
  }

  /** A run with one limit changes it after the end, or before the start. */
  lemma OnlyOneLimit(limit: Limit, a: Limit, b: Limit, expiration: int, j: nat)
    requires expiration >= 0 && limit.duration > expiration + 1
    requires (limit == a && j == |EarlyClear(limit, expiration)|) || (limit == b && j == 0)
    ensures var events, k := EarlyClear(limit, expiration), EffectiveMax(limit) + 1;
            && ChangesLimit(events, j, a, b) && WellTimed(events) && AsksAt(events, k)
            && Granted(events, expiration, k) && !LogGranted(events, k)
  {
    hide Granted, LogGranted;
    EarlyClearIsVisible(limit, expiration);
  }

  // ----- the spacing of the grants -----

  lemma {:induction false} IssuedWhileFilling(events: seq<Event>, limit: Limit, expiration: int, k: nat)
    requires k <= EffectiveMax(limit) && k <= |events|
    requires forall j :: 0 <= j < k ==> events[j] == Ask("key", limit, 0)
    ensures Issued(events, expiration, "key", k) == Repeat(0, k)
  {
    hide StateAt, RequestStep, LogStep;
    if k > 0 {
      var n := k - 1;
      IssuedWhileFilling(events, limit, expiration, n);
      FillingFromStart(events, limit, expiration, 0, n);
      FillStep(StateAt(events, expiration, n), LogAt(events, n), limit, 0, Repeat(0, n), Repeat(0, n));
      assert Granted(events, expiration, n);
    }
  }

  /** When the cleaner runs too early, the limiter issues one grant more than the maximum in less than
      the duration. */
  lemma EarlyClearIsUnspaced(limit: Limit, expiration: int)
    requires expiration >= 0 && limit.duration > expiration + 1
    ensures var events := EarlyClear(limit, expiration);
            !Spaced(Issued(events, expiration, "key", |events|), limit)
  {
    hide RequestStep, LogStep, Cleared, Granted, Young;
    var events, n := EarlyClear(limit, expiration), EffectiveMax(limit);
    EarlyClearIsVisible(limit, expiration);
    IssuedWhileFilling(events, limit, expiration, n);
    assert events[n] == Clear(expiration + 1) && events[n + 1] == Ask("key", limit, expiration + 1);
    assert Issued(events, expiration, "key", n + 1) == Repeat(0, n);
    var issued := Issued(events, expiration, "key", n + 2);
    assert issued == Repeat(0, n) + [expiration + 1];
    assert issued[n] - issued[0] == expiration + 1;
  }

  function LatestTime(events: seq<Event>): (now: int)
    requires WellTimed(events)
    ensures forall j :: 0 <= j < |events| ==> events[j].now <= now
  {
    if events == [] then 0 else events[|events| - 1].now
  }

  /** Any `max + 1` consecutive grants that the limiter issues for a key span at least the duration, on
      every run with that limit, if and only if the duration is at most one second longer than the
      expiration. */
  lemma GrantsAreSpacedIff(limit: Limit, expiration: int)
    requires expiration >= 0
    ensures limit.duration <= expiration + 1 <==>
            forall events, key :: SameLimit(events, limit) && WellTimed(events) ==>
              Spaced(Issued(events, expiration, key, |events|), limit)
  {
    hide Issued, Spaced, WellTimed, Young;
    if limit.duration <= expiration + 1 {
      forall events: seq<Event>, key: string | SameLimit(events, limit) && WellTimed(events)
        ensures Spaced(Issued(events, expiration, key, |events|), limit)
      {
        SameLimitFits(events, limit, expiration, key);
        IssuedIsLog(events, expiration, key, |events|);
        LogIsSpaced(events, key, limit, |events|, LatestTime(events));
      }
    } else {
      EarlyClearIsVisible(limit, expiration);
      EarlyClearIsUnspaced(limit, expiration);
      assert SameLimit(EarlyClear(limit, expiration), limit);
    }
  }
}
