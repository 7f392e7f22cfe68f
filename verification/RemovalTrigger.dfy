/** When a failed request is allowed to start a removal: the consecutive-failure gate and the
    per-model cooldown in front of the removal task. */
module RemovalTrigger {
  import opened ModelRemoval

  /** A channel id and a model name. */
  type Pair = (int, string)

  predicate GateApplies(reason: Reason) {
    reason == RateLimit || reason == Forbidden
  }

  function Threshold(configured: int): (r: int)
    ensures r >= 1
  {
    if configured >= 1 then configured else 10
  }

  function Cooldown(configured: int): (r: int)
    ensures r >= 1
  {
    if configured < 1 then 60 else configured
  }

  predicate Countable(pair: Pair) {
    pair.0 > 0 && pair.1 != ""
  }

  datatype State = State(streaks: map<Pair, nat>, lastTrigger: map<Pair, int>)

  function StreakOf(streaks: map<Pair, nat>, pair: Pair): nat {
    if pair in streaks then streaks[pair] else 0
  }

  /** Counts a failure; the answer says whether the gate opens, which restarts the count unless the
      deletion of the counter fails. */
  function StreakStep(streaks: map<Pair, nat>, pair: Pair, reason: Reason, threshold: int, deleted: bool)
    : (map<Pair, nat>, bool)
  {
    if !GateApplies(reason) then
      (streaks, true)
    else if !Countable(pair) then
      (streaks, 0 >= threshold)
    else
      var streak := StreakOf(streaks, pair) + 1;
      if streak < threshold then (streaks[pair := streak], false)
      else (if deleted then streaks - {pair} else streaks[pair := streak], true)
  }

  function Evict(last: map<Pair, int>, now: int, cooldown: int): map<Pair, int> {
    map p | p in last && now - last[p] < cooldown * 10 :: last[p]
  }

  predicate CoolingDown(last: map<Pair, int>, pair: Pair, now: int, cooldown: int) {
    pair in last && now - last[pair] < cooldown
  }

  function CooldownStep(last: map<Pair, int>, pair: Pair, now: int, cooldown: int): (map<Pair, int>, bool) {
    var kept := Evict(last, now, cooldown);
    if CoolingDown(kept, pair, now, cooldown) then (kept, false) else (kept[pair := now], true)
  }

  function FailureStep(s: State, pair: Pair, reason: Reason, now: int, threshold: int, cooldown: int, deleted: bool)
    : (State, bool)
  {
    var (streaks, open) := StreakStep(s.streaks, pair, reason, threshold, deleted);
    if !open then
      (s.(streaks := streaks), false)
    else
      var (last, ok) := CooldownStep(s.lastTrigger, pair, now, cooldown);
      (State(streaks, last), ok)
  }

  /** The counters and the trigger times as the code keeps them. */
  class RemovalGate {
    var streaks: map<Pair, nat>
    var lastTrigger: map<Pair, int>

    constructor ()
      ensures View() == State(map[], map[])
    {
      streaks, lastTrigger := map[], map[];
    }

    function View(): State
      reads this
    {
      State(streaks, lastTrigger)
    }

    /** `deleted` says whether the store deletes the counter when asked to; the answer is not looked at. */
    method StreakReached(pair: Pair, reason: Reason, configuredThreshold: int, deleted: bool) returns (open: bool)
      modifies this`streaks
      ensures (streaks, open) == StreakStep(old(streaks), pair, reason, Threshold(configuredThreshold), deleted)
    {
      if !GateApplies(reason) {
        return true;
      }
      var streak := 0;
      if Countable(pair) {
        streak := StreakOf(streaks, pair) + 1;
        streaks := streaks[pair := streak];
      }
      if streak < Threshold(configuredThreshold) {
        return false;
      }
      Reset(pair, deleted);
      assert deleted ==> streaks == old(streaks) - {pair};
      return true;
    }

    /** A success restarts the count of its pair, unless the deletion fails. */
    method Reset(pair: Pair, deleted: bool)
      modifies this`streaks
      ensures streaks == if Countable(pair) && deleted then old(streaks) - {pair} else old(streaks)
    {
      if !Countable(pair) {
        return;
      }
      if deleted {
        streaks := streaks - {pair};
      }
    }

    /** Drops stale entries one by one, then answers for the pair. */
    method CooldownOk(pair: Pair, now: int, configuredCooldown: int) returns (ok: bool)
      modifies this`lastTrigger
      ensures (lastTrigger, ok) == CooldownStep(old(lastTrigger), pair, now, Cooldown(configuredCooldown))
    {
      var cooldown := Cooldown(configuredCooldown);
      var rest := lastTrigger.Keys;
      while rest != {}
        invariant rest <= old(lastTrigger).Keys
        invariant forall p :: p in lastTrigger <==>
                    p in old(lastTrigger) && (p in rest || now - old(lastTrigger)[p] < cooldown * 10)
        invariant forall p :: p in lastTrigger ==> lastTrigger[p] == old(lastTrigger)[p]
        decreases rest
      {
        var p :| p in rest;
        if now - lastTrigger[p] >= cooldown * 10 {
          lastTrigger := lastTrigger - {p};
        }
        rest := rest - {p};
      }
      assert lastTrigger == Evict(old(lastTrigger), now, cooldown);
      if pair in lastTrigger && now - lastTrigger[pair] < cooldown {
        return false;
      }
      lastTrigger := lastTrigger[pair := now];
      return true;
    }

    /** A failure recognised as removable; the answer says whether a removal task is submitted. */
    method TryHandle(pair: Pair, reason: Reason, now: int, configuredThreshold: int, configuredCooldown: int,
                     deleted: bool)
      returns (submitted: bool)
      modifies this
      ensures (View(), submitted)
           == FailureStep(old(View()), pair, reason, now, Threshold(configuredThreshold),
                          Cooldown(configuredCooldown), deleted)
    {
      var open := StreakReached(pair, reason, configuredThreshold, deleted);
      if !open {
        return false;
      }
      submitted := CooldownOk(pair, now, configuredCooldown);
    }
  }

  // ----- runs -----

  /** What happens to the gate: a recognised failure, under the options in force at that moment; a
      successful request; a counter expiring on its own; or a channel being re-enabled, which clears its
      counters. Deleting a counter can fail unnoticed: `deleted` says whether it works, `kept` names the
      counters that a clearing does not reach. */
  datatype Event =
    | Failure(pair: Pair, reason: Reason, now: int, configuredThreshold: int, configuredCooldown: int, deleted: bool)
    | Success(pair: Pair, deleted: bool)
    | Expire(pair: Pair)
    | ClearChannel(channel: int, kept: set<Pair>)
  {
    function ThresholdInForce(): (r: int)
      requires Failure?
      ensures r >= 1 && (configuredThreshold >= 1 ==> r == configuredThreshold)
      ensures configuredThreshold < 1 ==> r == 10
    {
      Threshold(configuredThreshold)
    }

    function CooldownInForce(): (r: int)
      requires Failure?
      ensures r >= 1 && (configuredCooldown >= 1 ==> r == configuredCooldown)
      ensures configuredCooldown < 1 ==> r == 60
    {
      Cooldown(configuredCooldown)
    }
  }

  function ClearOf(streaks: map<Pair, nat>, channel: int, kept: set<Pair>): map<Pair, nat> {
    map p | p in streaks && (p.0 != channel || p in kept) :: streaks[p]
  }

  function Step(s: State, e: Event): (State, bool) {
    match e
    case Failure(pair, reason, now, _, _, deleted) =>
      FailureStep(s, pair, reason, now, e.ThresholdInForce(), e.CooldownInForce(), deleted)
    case Success(pair, deleted) =>
      (if Countable(pair) && deleted then s.(streaks := s.streaks - {pair}) else s, false)
    case Expire(pair) => (s.(streaks := s.streaks - {pair}), false)
    case ClearChannel(channel, kept) =>
      (if channel > 0 then s.(streaks := ClearOf(s.streaks, channel, kept)) else s, false)
  }

  const Empty: State := State(map[], map[])

  function StateAt(events: seq<Event>, k: nat): State
    requires k <= |events|
  {
    if k == 0 then Empty else Step(StateAt(events, k - 1), events[k - 1]).0
  }

  /** Event `k` submits a removal task. */
  predicate Submits(events: seq<Event>, k: nat)
    requires k < |events|
  {
    Step(StateAt(events, k), events[k]).1
  }

  /** Event `k` is a failure that the gate counts for `pair`: not one for a missing model. */
  predicate CountsFor(events: seq<Event>, pair: Pair, k: nat)
    requires k < |events|
  {
    events[k].Failure? && events[k].pair == pair && events[k].reason != Missing
  }

  /** Event `k` should end every run of failures of `pair`: a success, or a clearing of the channel. */
  predicate ShouldInterrupt(events: seq<Event>, pair: Pair, k: nat)
    requires k < |events|
  {
    || (events[k].Success? && events[k].pair == pair)
    || (events[k].ClearChannel? && events[k].channel == pair.0)
  }

  /** Event `k` is a counted failure of `pair` that opens the gate. */
  predicate Opens(events: seq<Event>, pair: Pair, k: nat)
    requires k < |events|
  {
    var e := events[k];
    CountsFor(events, pair, k)
    && StreakStep(StateAt(events, k).streaks, pair, e.reason, e.ThresholdInForce(), e.deleted).1
  }

  /** The counter of `pair` survives the deletion that event `k` asks for. */
  predicate DeletionFails(events: seq<Event>, pair: Pair, k: nat)
    requires k < |events|
  {
    match events[k]
    case Failure(_, _, _, _, _, deleted) => Opens(events, pair, k) && !deleted
    case Success(p, deleted) => p == pair && !deleted
    case Expire(_) => false
    case ClearChannel(channel, kept) => channel == pair.0 && pair in kept
  }

  /** Event `k` ends a run of failures of `pair` and deletes the counter. */
  predicate Restarts(events: seq<Event>, pair: Pair, k: nat)
    requires k < |events|
  {
    (ShouldInterrupt(events, pair, k) || Opens(events, pair, k)) && !DeletionFails(events, pair, k)
  }

  /** How many counted failures of `pair` there are among events `from` up to `to`. */
  function FailuresBetween(events: seq<Event>, pair: Pair, from: nat, to: nat): nat
    requires from <= to <= |events|
  {
    if from == to then
      0
    else
      FailuresBetween(events, pair, from, to - 1) + (if CountsFor(events, pair, to - 1) then 1 else 0)
  }

  /** From `from` up to `to` nothing restarts the count of `pair`: no success, no clearing of the channel
      and no opening of the gate, except those whose deletion of the counter fails. */
  predicate Unbroken(events: seq<Event>, pair: Pair, from: nat, to: nat)
    requires from <= to <= |events|
  {
    forall j: nat :: from <= j < to ==> !Restarts(events, pair, j)
  }

  /** From `from` up to `to` there is no success of `pair`, no clearing of the channel and no opening of
      the gate at all. */
  predicate Consecutive(events: seq<Event>, pair: Pair, from: nat, to: nat)
    requires from <= to <= |events|
  {
    forall j: nat :: from <= j < to ==> !ShouldInterrupt(events, pair, j) && !Opens(events, pair, j)
  }

  /** A counter never exceeds the failures of an unbroken stretch that reaches up to now. */
  lemma {:induction false} StreakIsBackedByFailures(events: seq<Event>, pair: Pair, k: nat) returns (from: nat)
    requires k <= |events| && Countable(pair)
    ensures from <= k && Unbroken(events, pair, from, k)
    ensures StreakOf(StateAt(events, k).streaks, pair) <= FailuresBetween(events, pair, from, k)
  {
    hide CooldownStep;
    from := k;
    if k > 0 {
      if !Restarts(events, pair, k - 1) {
        from := StreakIsBackedByFailures(events, pair, k - 1);
      }
    }
  }

  /** Every gated submission follows at least as many failures of that channel and model, this one
      included, as the threshold in force asks for, with nothing between that restarts the count; counters
      may expire and options change at any time. */
  lemma SubmissionNeedsUnbrokenFailures(events: seq<Event>, k: nat)
    requires k < |events| && Submits(events, k) && events[k].Failure? && events[k].reason != Missing
    ensures events[k].pair.0 > 0 && events[k].pair.1 != ""
    ensures exists from: nat :: from <= k
              && Unbroken(events, events[k].pair, from, k)
              && FailuresBetween(events, events[k].pair, from, k + 1) >= events[k].ThresholdInForce()
  {
    hide CooldownStep;
    var pair := events[k].pair;
    var from := StreakIsBackedByFailures(events, pair, k);
    assert FailuresBetween(events, pair, from, k + 1) == FailuresBetween(events, pair, from, k) + 1;
  }

  /** So as long as no deletion of its counter fails, every gated submission follows consecutive failures:
      no success, no clearing and no earlier opening lies between them. */
  lemma SubmissionNeedsConsecutiveFailures(events: seq<Event>, k: nat)
    requires k < |events| && Submits(events, k) && events[k].Failure? && events[k].reason != Missing
    requires forall j: nat :: j < k ==> !DeletionFails(events, events[k].pair, j)
    ensures exists from: nat :: from <= k
              && Consecutive(events, events[k].pair, from, k)
              && FailuresBetween(events, events[k].pair, from, k + 1) >= events[k].ThresholdInForce()
  {
    hide Submits, Opens, ShouldInterrupt, DeletionFails, FailuresBetween;
    SubmissionNeedsUnbrokenFailures(events, k);
    var pair := events[k].pair;
    var from: nat :| from <= k && Unbroken(events, pair, from, k)
                     && FailuresBetween(events, pair, from, k + 1) >= events[k].ThresholdInForce();
    forall j: nat | from <= j < k
      ensures !ShouldInterrupt(events, pair, j) && !Opens(events, pair, j)
    {
      assert !Restarts(events, pair, j) && !DeletionFails(events, pair, j);
    }
    assert Consecutive(events, pair, from, k);
  }

  /** One failed deletion is enough: with a threshold of two, failures before and after a success
      submit a removal. */
  lemma FailedDeletionBridgesSuccess(pair: Pair, reason: Reason, cooldown: int)
    requires pair.0 > 0 && pair.1 != "" && reason != Missing
    ensures var failure := Failure(pair, reason, 0, 2, cooldown, true);
            var events := [failure, Success(pair, false), failure];
            && Submits(events, 2)
            && !exists from: nat :: from <= 2 && Consecutive(events, pair, from, 2)
                                   && FailuresBetween(events, pair, from, 3) >= 2
  {
    var failure := Failure(pair, reason, 0, 2, cooldown, true);
    var events := [failure, Success(pair, false), failure];
    assert StateAt(events, 0) == Empty;
    assert StateAt(events, 1).streaks == map[pair := 1] && StateAt(events, 1).lastTrigger == map[];
    assert StateAt(events, 2) == StateAt(events, 1);
    assert ShouldInterrupt(events, pair, 1);
    assert FailuresBetween(events, pair, 2, 2) == 0;
    assert FailuresBetween(events, pair, 2, 3) == 1;
  }

  /** The gate opens exactly at a failure that completes the threshold then in force, counted from the last
      event that deleted the counter, or its last expiry. */
  lemma {:induction false} StreakExact(events: seq<Event>, pair: Pair, from: nat, k: nat)
    requires from <= k <= |events| && pair.0 > 0 && pair.1 != ""
    requires from == 0 || Restarts(events, pair, from - 1) || events[from - 1] == Expire(pair)
    requires Unbroken(events, pair, from, k) && forall j: nat :: from <= j < k ==> events[j] != Expire(pair)
    ensures StreakOf(StateAt(events, k).streaks, pair) == FailuresBetween(events, pair, from, k)
    ensures k < |events| && CountsFor(events, pair, k) ==>
              (Opens(events, pair, k) <==> FailuresBetween(events, pair, from, k + 1) >= events[k].ThresholdInForce())
  {
    hide CooldownStep;
    if from < k {
      StreakExact(events, pair, from, k - 1);
      assert !Restarts(events, pair, k - 1);
      assert events[k - 1] != Expire(pair);
    }
  }

  // ----- the cooldown -----

  /** The clock does not run backwards over the failures of a run. */
  predicate ClockMonotone(events: seq<Event>) {
    forall i, j :: 0 <= i < j < |events| && events[i].Failure? && events[j].Failure? ==>
      events[i].now <= events[j].now
  }

  /** None of the first `k` events has a cooldown more than ten times an earlier one. */
  ghost predicate NoTenfoldRise(events: seq<Event>, k: nat) {
    forall i: nat, j: nat :: i < j < k && j < |events| && events[i].Failure? && events[j].Failure? ==>
      events[j].CooldownInForce() <= 10 * events[i].CooldownInForce()
  }

  /** The cooldown without eviction: every trigger time is remembered for ever. */
  function RememberingStep(s: State, e: Event): (State, bool) {
    if !e.Failure? then
      Step(s, e)
    else
      var (streaks, open) := StreakStep(s.streaks, e.pair, e.reason, e.ThresholdInForce(), e.deleted);
      if !open then
        (s.(streaks := streaks), false)
      else if CoolingDown(s.lastTrigger, e.pair, e.now, e.CooldownInForce()) then
        (s.(streaks := streaks), false)
      else
        (State(streaks, s.lastTrigger[e.pair := e.now]), true)
  }

  function RememberingAt(events: seq<Event>, k: nat): State
    requires k <= |events|
  {
    if k == 0 then Empty else RememberingStep(RememberingAt(events, k - 1), events[k - 1]).0
  }

  /** What eviction may have removed is at least `age` old at `now`. */
  ghost predicate EvictedIsStale(kept: map<Pair, int>, all: map<Pair, int>, age: int, now: int) {
    && (forall p :: p in kept ==> p in all && all[p] == kept[p])
    && (forall p :: p in all && p !in kept ==> now - all[p] >= age)
  }

  lemma CooldownKeepsStale(kept: map<Pair, int>, all: map<Pair, int>, pair: Pair, now: int, cooldown: int, age: int)
    requires EvictedIsStale(kept, all, age, now) && 1 <= cooldown <= age && age <= 10 * cooldown
    ensures CoolingDown(Evict(kept, now, cooldown), pair, now, cooldown) <==> CoolingDown(all, pair, now, cooldown)
    ensures EvictedIsStale(Evict(kept, now, cooldown), all, age, now)
    ensures EvictedIsStale(Evict(kept, now, cooldown)[pair := now], all[pair := now], age, now)
  {
  }

  lemma FailureKeepsStale(s: State, all: State, e: Event, age: int)
    requires e.Failure? && s.streaks == all.streaks
    requires EvictedIsStale(s.lastTrigger, all.lastTrigger, age, e.now)
    requires e.CooldownInForce() <= age <= 10 * e.CooldownInForce()
    ensures Step(s, e).1 <==> RememberingStep(all, e).1
    ensures Step(s, e).0.streaks == RememberingStep(all, e).0.streaks
    ensures EvictedIsStale(Step(s, e).0.lastTrigger, RememberingStep(all, e).0.lastTrigger, age, e.now)
  {
    hide StreakStep, Evict, EvictedIsStale;
    CooldownKeepsStale(s.lastTrigger, all.lastTrigger, e.pair, e.now, e.CooldownInForce(), age);
  }

  lemma StaleLater(kept: map<Pair, int>, all: map<Pair, int>, age: int, now: int, age': int, now': int)
    requires EvictedIsStale(kept, all, age, now) && age' <= age && now <= now'
    ensures EvictedIsStale(kept, all, age', now')
  {
  }

  /** An age that no cooldown so far is too small for. */
  ghost predicate Covers(events: seq<Event>, k: nat, now: int, age: int) {
    forall j: nat :: j < k && j < |events| && events[j].Failure? ==>
      events[j].now <= now && age <= 10 * events[j].CooldownInForce()
  }

  lemma CoversNext(events: seq<Event>, k: nat)
    requires k < |events| && events[k].Failure? && ClockMonotone(events) && NoTenfoldRise(events, k + 1)
    ensures Covers(events, k, events[k].now, events[k].CooldownInForce())
  {
  }

  lemma CoversBoth(events: seq<Event>, k: nat, now: int, age: int, now': int, age': int)
    requires Covers(events, k, now, age) && Covers(events, k, now', age')
    ensures Covers(events, k, now', if age >= age' then age else age')
  {
  }

  lemma CoversEarlier(events: seq<Event>, k: nat, now: int, age: int)
    requires k < |events| && Covers(events, k + 1, now, age)
    ensures Covers(events, k, now, age)
    ensures events[k].Failure? ==> events[k].now <= now && age <= 10 * events[k].CooldownInForce()
  {
  }

  /** Up to event `k` what eviction removed is too old for every later cooldown up to `age`. */
  lemma {:induction false} EvictionStaysStale(events: seq<Event>, k: nat, now: int, age: int)
    requires k <= |events| && ClockMonotone(events) && NoTenfoldRise(events, k)
    requires Covers(events, k, now, age)
    ensures StateAt(events, k).streaks == RememberingAt(events, k).streaks
    ensures EvictedIsStale(StateAt(events, k).lastTrigger, RememberingAt(events, k).lastTrigger, age, now)
  {
    hide FailureStep, StreakStep, EvictedIsStale, Covers, ClockMonotone, NoTenfoldRise;
    if k == 0 {
      NothingEvicted(age, now);
    } else {
      var e := events[k - 1];
      CoversEarlier(events, k - 1, now, age);
      RiseOfPrefix(events, k - 1);
      if e.Failure? {
        var c := e.CooldownInForce();
        var wide := if age >= c then age else c;
        CoversNext(events, k - 1);
        CoversBoth(events, k - 1, now, age, e.now, c);
        EvictionStaysStale(events, k - 1, e.now, wide);
        FailureKeepsStale(StateAt(events, k - 1), RememberingAt(events, k - 1), e, wide);
        StaleLater(StateAt(events, k).lastTrigger, RememberingAt(events, k).lastTrigger, wide, e.now, age, now);
      } else {
        EvictionStaysStale(events, k - 1, now, age);
      }
    }
  }

  lemma NothingEvicted(age: int, now: int)
    ensures EvictedIsStale(map[], map[], age, now)
  {
  }

  lemma RiseOfPrefix(events: seq<Event>, k: nat)
    requires NoTenfoldRise(events, k + 1)
    ensures NoTenfoldRise(events, k)
  {
  }

  /** Evicting old entries never changes an answer, as long as no cooldown is more than ten times an
      earlier one. */
  lemma EvictionInvisible(events: seq<Event>, k: nat)
    requires k < |events| && ClockMonotone(events) && NoTenfoldRise(events, k + 1)
    ensures Submits(events, k) <==> RememberingStep(RememberingAt(events, k), events[k]).1
  {
    hide FailureStep, StreakStep, EvictedIsStale, Covers, ClockMonotone, NoTenfoldRise;
    if events[k].Failure? {
      var e := events[k];
      CoversNext(events, k);
      RiseOfPrefix(events, k);
      EvictionStaysStale(events, k, e.now, e.CooldownInForce());
      FailureKeepsStale(StateAt(events, k), RememberingAt(events, k), e, e.CooldownInForce());
    }
  }

  lemma {:induction false} SubmissionIsRemembered(events: seq<Event>, i: nat, k: nat)
    requires i < k <= |events| && ClockMonotone(events) && NoTenfoldRise(events, k)
    requires Submits(events, i)
    ensures events[i].Failure? && events[i].pair in RememberingAt(events, k).lastTrigger
    ensures RememberingAt(events, k).lastTrigger[events[i].pair] >= events[i].now
  {
    hide StreakStep, Evict;
    assert NoTenfoldRise(events, i + 1);
    EvictionInvisible(events, i);
    if i < k - 1 {
      SubmissionIsRemembered(events, i, k - 1);
    }
  }

  /** Two submissions for the same channel and model are at least the cooldown in force at the second one
      apart, as long as no cooldown is more than ten times an earlier one. */
  lemma SubmissionsAreCooldownApart(events: seq<Event>, i: nat, j: nat)
    requires i < j < |events| && ClockMonotone(events) && NoTenfoldRise(events, j + 1)
    requires Submits(events, i) && Submits(events, j)
    requires events[i].Failure? && events[j].Failure? && events[i].pair == events[j].pair
    ensures events[j].now - events[i].now >= events[j].CooldownInForce()
  {
    SubmissionIsRemembered(events, i, j);
    EvictionInvisible(events, j);
  }

  /** Event `k` is a failure that the consecutive-failure gate lets through. */
  predicate LetThrough(events: seq<Event>, k: nat)
    requires k < |events|
  {
    events[k].Failure? && (events[k].reason == Missing || Opens(events, events[k].pair, k))
  }

  /** Event `i` is the last submission for `pair` before event `k`. */
  ghost predicate LastSubmission(events: seq<Event>, pair: Pair, i: nat, k: nat)
    requires k <= |events|
  {
    && i < k && Submits(events, i) && events[i].Failure? && events[i].pair == pair
    && forall j: nat :: i < j < k && events[j].Failure? && events[j].pair == pair ==> !Submits(events, j)
  }

  lemma RemembersStep(s: State, e: Event, pair: Pair)
    ensures var (next, submits) := RememberingStep(s, e);
            if submits && e.Failure? && e.pair == pair then
              pair in next.lastTrigger && next.lastTrigger[pair] == e.now
            else
              && (pair in next.lastTrigger <==> pair in s.lastTrigger)
              && (pair in s.lastTrigger ==> next.lastTrigger[pair] == s.lastTrigger[pair])
  {
    hide StreakStep;
  }

  /** What is remembered of a pair is its last submission. */
  lemma {:induction false} RemembersLastSubmission(events: seq<Event>, pair: Pair, k: nat) returns (last: nat)
    requires k <= |events| && ClockMonotone(events) && NoTenfoldRise(events, k)
    ensures if pair in RememberingAt(events, k).lastTrigger
            then LastSubmission(events, pair, last, k)
                 && RememberingAt(events, k).lastTrigger[pair] == events[last].now
            else forall j: nat :: j < k && events[j].Failure? && events[j].pair == pair ==> !Submits(events, j)
  {
    hide Step, RememberingStep, ClockMonotone, NoTenfoldRise, Submits;
    last := 0;
    if k > 0 {
      RiseOfPrefix(events, k - 1);
      last := RemembersLastSubmission(events, pair, k - 1);
      RemembersStep(RememberingAt(events, k - 1), events[k - 1], pair);
      EvictionInvisible(events, k - 1);
      if events[k - 1].Failure? && events[k - 1].pair == pair && Submits(events, k - 1) {
        last := k - 1;
      }
    }
  }

  /** A failure submits a removal if and only if the consecutive-failure gate lets it through and every
      earlier submission for the same channel and model is at least the cooldown in force ago, as long as
      no cooldown is more than ten times an earlier one. A missing model always passes the first gate. */
  lemma SubmitsExactly(events: seq<Event>, k: nat)
    requires k < |events| && ClockMonotone(events) && NoTenfoldRise(events, k + 1)
    ensures Submits(events, k) <==>
              && LetThrough(events, k)
              && forall i: nat | i < k && events[i].Failure? && events[i].pair == events[k].pair
                                 && Submits(events, i) ::
                   events[k].now - events[i].now >= events[k].CooldownInForce()
  {
    hide Evict, NoTenfoldRise;
    RiseOfPrefix(events, k);
    EvictionInvisible(events, k);
    if events[k].Failure? {
      var e := events[k];
      EvictionStaysSame(events, k);
      var last := RemembersLastSubmission(events, e.pair, k);
    }
  }

  /** The counters do not depend on the eviction. */
  lemma EvictionStaysSame(events: seq<Event>, k: nat)
    requires k < |events| && events[k].Failure? && ClockMonotone(events) && NoTenfoldRise(events, k + 1)
    ensures StateAt(events, k).streaks == RememberingAt(events, k).streaks
  {
    hide Step, RememberingStep, ClockMonotone, NoTenfoldRise, Covers;
    CoversNext(events, k);
    RiseOfPrefix(events, k);
    EvictionStaysStale(events, k, events[k].now, events[k].CooldownInForce());
  }

  // ----- raising the cooldown -----

  /** The cooldown is `a`, and from some event on it is `b`. */
  ghost predicate Changes(events: seq<Event>, a: int, b: int) {
    exists n: nat :: ChangesAt(events, a, b, n)
  }

  ghost predicate ChangesAt(events: seq<Event>, a: int, b: int, n: nat) {
    forall j: nat :: j < |events| && events[j].Failure? ==>
      events[j].configuredCooldown == if j < n then a else b
  }

  /** A removal is submitted, another pair's failure evicts it exactly when the first cooldown allows it,
      and the first pair fails again at once under the second cooldown. */
  function RaisedCooldown(p: Pair, q: Pair, a: int, b: int): seq<Event> {
    [Failure(p, Missing, 0, 1, a, true), Failure(q, Missing, 10 * a, 1, a, true),
     Failure(p, Missing, 10 * a, 1, b, true)]
  }

  lemma RaisedCooldownIsVisible(p: Pair, q: Pair, a: int, b: int)
    requires p != q && 1 <= a && b > 10 * a
    ensures var events := RaisedCooldown(p, q, a, b);
            && Changes(events, a, b) && ClockMonotone(events)
            && Submits(events, 0) && Submits(events, 2)
            && !RememberingStep(RememberingAt(events, 2), events[2]).1
  {
    var events := RaisedCooldown(p, q, a, b);
    assert StateAt(events, 0) == Empty && RememberingAt(events, 0) == Empty;
    assert StateAt(events, 1).lastTrigger == map[p := 0];
    assert RememberingAt(events, 1).lastTrigger == map[p := 0];
    assert StateAt(events, 2).lastTrigger == map[q := 10 * a];
    assert RememberingAt(events, 2).lastTrigger == map[p := 0, q := 10 * a];
    assert ChangesAt(events, a, b, 2);
  }

  /** Changing the cooldown from one value to another is invisible to eviction, on every run, if and only
      if the new value is at most ten times the old one. */
  lemma CooldownChangeIff(a: int, b: int)
    requires a >= 1 && b >= 1
    ensures b <= 10 * a <==>
            forall events, k: nat :: k < |events| && ClockMonotone(events) && Changes(events, a, b) ==>
              (Submits(events, k) <==> RememberingStep(RememberingAt(events, k), events[k]).1)
  {
    hide Step, RememberingStep, StateAt, RememberingAt;
    if b <= 10 * a {
      forall events: seq<Event>, k: nat | k < |events| && ClockMonotone(events) && Changes(events, a, b)
        ensures Submits(events, k) <==> RememberingStep(RememberingAt(events, k), events[k]).1
      {
        assert NoTenfoldRise(events, k + 1);
        EvictionInvisible(events, k);
      }
    } else {
      RaisedCooldownIsVisible((1, "a"), (2, "a"), a, b);
    }
  }
}
