/** What every step of the removal and recheck transactions keeps, and what holds over whole runs
    of them, in any order, from any number of nodes. */
module ModelRemovalRuns {
  import opened Options
  import opened Text
  import opened ModelNames
  import opened ModelRemoval

  /** One atomic step on the row: a removal, a recheck, or an operator changing the channel's
      status and its removal switch. The settings in force may differ from step to step. */
  datatype Event =
    | Remove(model: string, reason: Reason, cfg: Config, now: nat, commitOk: bool)
    | Recheck(fetch: Option<seq<string>>, mapping: Mapping, cfg: Config, now: nat, retryNow: nat,
              abilitiesOk: bool, storeOk: bool)
    | SetAvailability(enabled: bool, removalDisabled: bool)

  function RecheckOf(row: Row, e: Event): (Row, RecheckOutcome)
    requires e.Recheck?
  {
    RecheckStep(row, e.fetch, e.mapping, e.cfg, e.now, e.retryNow, e.abilitiesOk, e.storeOk)
  }

  function RemovalOf(row: Row, e: Event): (Row, RemovalOutcome)
    requires e.Remove?
  {
    RemovalStep(row, e.model, e.reason, e.cfg, e.now, e.commitOk)
  }

  function Step(row: Row, e: Event): Row {
    match e
    case Remove(_, _, _, _, _) => RemovalOf(row, e).0
    case Recheck(_, _, _, _, _, _, _) => RecheckOf(row, e).0
    case SetAvailability(enabled, removalDisabled) =>
      row.(enabled := enabled, removalDisabled := removalDisabled)
  }

  /** The row after the first `k` events of a run. */
  function StateAt(init: Row, events: seq<Event>, k: nat): Row
    requires k <= |events|
  {
    if k == 0 then init else Step(StateAt(init, events, k - 1), events[k - 1])
  }

  predicate ExpiresAt(row: Row, e: Event) {
    e.Recheck? && RecheckOf(row, e).1.Expired?
  }

  predicate RemovesAt(row: Row, e: Event) {
    e.Remove? && RemovalOf(row, e).1.Removed?
  }

  /** A row on which nothing has been removed yet; any model column, any status. */
  predicate Fresh(row: Row) {
    row.watched == [] && row.reasons == map[] && row.removedAt == 0 && row.recheckAt == 0
  }

  /** The bookkeeping every step keeps: the watch list is normal and storable, it is non-empty
      exactly when a recheck is scheduled, and only watched models carry a reason. */
  ghost predicate Tracked(row: Row) {
    && IsNormal(row.watched)
    && SepFree(row.watched, COMMA)
    && (row.watched != [] <==> row.recheckAt > 0)
    && row.recheckAt >= 0
    && row.removedAt >= 0
    && row.reasons.Keys <= Elements(row.watched)
  }

  /** Every model the channel knows about: served or watched. */
  ghost function Universe(row: Row): set<string> {
    Elements(Names(row)) + Elements(row.watched)
  }

  // ----- the effect of a single step -----

  /** What a step does to the lists, without the settings and clocks that decided it. */
  datatype Effect =
    | Unchanged
    | Moved(model: string)
    | DroppedWatch
    | Rescheduled
    | Restored(restored: seq<string>, missing: seq<string>)
    | Retried(restored: seq<string>, missing: seq<string>)

  function EffectOf(row: Row, e: Event): Effect {
    match e
    case Remove(_, _, _, _, _) =>
      if RemovalOf(row, e).1.Removed? then Moved(e.model) else Unchanged
    case SetAvailability(_, _) => Unchanged
    case Recheck(_, _, _, _, _, _, _) =>
      match RecheckOf(row, e).1
      case Expired => DroppedWatch
      case Deferred => Rescheduled
      case Rechecked(restored, missing) => Restored(restored, missing)
      case RetryNextRound(restored, missing) => Retried(restored, missing)
      case _ => Unchanged
  }

  /** `restored` and `missing` split `watched`. */
  ghost predicate Splits(watched: seq<string>, restored: seq<string>, missing: seq<string>) {
    && IsNormal(restored) && IsNormal(missing)
    && SepFree(restored, COMMA) && SepFree(missing, COMMA)
    && Elements(restored) !! Elements(missing)
    && Elements(restored) + Elements(missing) == Elements(watched)
    && |restored| + |missing| == |watched|
  }

  ghost predicate Shows(row: Row, next: Row, f: Effect) {
    match f
    case Unchanged =>
      next == row.(enabled := next.enabled, removalDisabled := next.removalDisabled)
    case Moved(model) =>
      && model in Names(row)
      && Names(next) == Without(Names(row), {model})
      && |Names(row)| > 1
      && |Names(next)| == |Names(row)| - 1
      && next.watched == row.watched + (if model in row.watched then [] else [model])
      && next.reasons.Keys == row.reasons.Keys + {model}
      && next.recheckAt > 0 && next.removedAt >= 0
    case DroppedWatch =>
      next == row.(watched := [], reasons := map[], recheckAt := 0, removedAt := 0)
    case Rescheduled =>
      row.watched != [] && next.recheckAt > 0 && next == row.(recheckAt := next.recheckAt)
    case Restored(restored, missing) =>
      && Splits(row.watched, restored, missing)
      && Names(next) == Names(row) + Without(restored, Elements(Names(row)))
      && next.watched == missing
      && next.reasons == PruneReasons(row.reasons, missing)
      && next.recheckAt >= 0 && (missing != [] <==> next.recheckAt > 0) && next.removedAt >= 0
    case Retried(restored, missing) =>
      && restored != []
      && Splits(row.watched, restored, missing)
      && Names(next) == Names(row) + Without(restored, Elements(Names(row)))
      && next.watched == missing + restored
      && next.reasons == PruneReasons(row.reasons, missing + restored)
      && next.recheckAt > 0 && next.removedAt >= 0
  }

  lemma NormalizeOne(model: string)
    requires model != "" && IsTrimmed(model, SPACES)
    ensures Normalize([model]) == [model]
  {
    assert forall m :: m in [model] ==> m == model;
    NormalizeFixed([model]);
  }

  lemma SubtractOne(names: seq<string>, model: string)
    requires IsNormal(names) && SepFree(names, COMMA) && model in names
    ensures var next := Subtract(names, [model]);
            && next == Without(names, {model})
            && |next| == |names| - 1
            && ColumnNames(Join(next, COMMA)) == next
  {
    NormalizeOne(model);
    NormalizeFixed(names);
    assert Elements([model]) == {model};
    var next := Subtract(names, [model]);
    ColumnRoundTrip(next);
    WithoutOne(names, model);
  }

  lemma MergeOne(watched: seq<string>, model: string)
    requires IsNormal(watched) && model != "" && IsTrimmed(model, SPACES)
    ensures Merge(watched, [model]) == watched + (if model in watched then [] else [model])
  {
    NormalizeOne(model);
    NormalizeFixed(watched);
    WithoutSnoc([], model, Elements(watched));
    assert [] + [model] == [model];
  }

  /** A committed removal takes exactly one model out of the column and puts it on the watch list,
      with its reason and the time. */
  lemma RemovalMovesModel(row: Row, e: Event)
    requires Tracked(row)
    ensures RemovesAt(row, e) ==>
              && Shows(row, RemovalOf(row, e).0, Moved(e.model))
              && RemovalOf(row, e).0.reasons == row.reasons[e.model := e.reason]
              && RemovalOf(row, e).0.removedAt == e.now
  {
    if RemovesAt(row, e) {
      SubtractOne(Names(row), e.model);
      MergeOne(row.watched, e.model);
    }
  }

  /** Rechecking splits the watch list, in order, into the models that are back and the rest. */
  lemma ClassificationPartition(watched: seq<string>, upstream: set<string>, mapping: Mapping)
    requires IsNormal(watched) && SepFree(watched, COMMA)
    ensures Splits(watched, RestoredOf(watched, upstream, mapping), StillMissingOf(watched, upstream, mapping))
    ensures forall m :: m in RestoredOf(watched, upstream, mapping)
                        <==> m in watched && (if m in mapping then mapping[m] else m) in upstream
  {
    NormalizeFixed(watched);
    PartitionLength(watched, Returned(watched, upstream, mapping));
  }

  /** Adding models back appends the missing ones to the column and keeps the others in place. */
  lemma RestoredNames(column: string, restored: seq<string>)
    requires IsNormal(restored) && SepFree(restored, COMMA)
    ensures ColumnNames(ExtendedColumn(column, restored))
         == ColumnNames(column) + Without(restored, Elements(ColumnNames(column)))
  {
    var names := ColumnNames(column);
    NormalizeFixed(names);
    NormalizeFixed(restored);
    MergeElements(names, restored);
    ColumnRoundTrip(Merge(names, restored));
  }

  lemma MergeDisjoint(a: seq<string>, b: seq<string>)
    requires IsNormal(a) && IsNormal(b) && Elements(a) !! Elements(b)
    ensures Merge(a, b) == a + b
    ensures IsNormal(a + b)
  {
    NormalizeFixed(a);
    NormalizeFixed(b);
    assert forall m :: m in b ==> m in Elements(b);
    WithoutNone(b, Elements(a));
    MergeElements(a, b);
  }

  lemma RestoredRowShows(row: Row, restored: seq<string>, missing: seq<string>, cfg: Config, now: nat)
    requires Tracked(row) && Splits(row.watched, restored, missing)
    ensures Shows(row, RestoredRow(row, restored, missing, cfg, now), Restored(restored, missing))
  {
    RestoredNames(row.models, restored);
  }

  lemma RetryRowShows(row: Row, restored: seq<string>, missing: seq<string>, cfg: Config, now: nat, retryNow: nat)
    requires Tracked(row) && Splits(row.watched, restored, missing) && restored != []
    ensures Shows(row, RetryRow(row, restored, missing, cfg, now, retryNow), Retried(restored, missing))
  {
    RestoredNames(row.models, restored);
    MergeDisjoint(missing, restored);
  }

  /** Every step shows its effect on the row. */
  lemma StepShowsEffect(row: Row, e: Event)
    requires Tracked(row)
    ensures Shows(row, Step(row, e), EffectOf(row, e))
  {
    hide Normalize, Within, Without, Join, Fields, PruneReasons;
    if RemovesAt(row, e) {
      RemovalMovesModel(row, e);
    } else if e.Recheck? && e.fetch.Some? {
      var upstream := Elements(e.fetch.value);
      var restored := RestoredOf(row.watched, upstream, e.mapping);
      var missing := StillMissingOf(row.watched, upstream, e.mapping);
      ClassificationPartition(row.watched, upstream, e.mapping);
      RestoredRowShows(row, restored, missing, e.cfg, e.now);
      if restored != [] {
        RetryRowShows(row, restored, missing, e.cfg, e.now, e.retryNow);
      }
    }
  }

  // ----- what every step keeps -----

  lemma EffectKeepsTracked(row: Row, next: Row, f: Effect)
    requires Tracked(row) && Shows(row, next, f)
    ensures Tracked(next)
  {
    match f
    case Moved(model) =>
      NoDuplicatesAppend(row.watched, if model in row.watched then [] else [model]);
      assert forall m :: m in next.watched <==> m in row.watched || m == model;
    case Retried(restored, missing) =>
      MergeDisjoint(missing, restored);
    case _ =>
  }

  /** The bookkeeping is kept by every step, including one whose abilities rebuild fails. */
  lemma StepKeepsTracked(row: Row, e: Event)
    requires Tracked(row)
    ensures Tracked(Step(row, e))
  {
    hide Normalize, Within, Without, Join, Fields, PruneReasons;
    StepShowsEffect(row, e);
    EffectKeepsTracked(row, Step(row, e), EffectOf(row, e));
  }

  /** The effect of a step on the two sets of served and watched models. */
  ghost predicate OnSets(s: set<string>, w: set<string>, s': set<string>, w': set<string>, f: Effect) {
    match f
    case Unchanged => s' == s && w' == w
    case Rescheduled => s' == s && w' == w
    case DroppedWatch => s' == s && w' == {}
    case Moved(model) => model in s && s' == s - {model} && w' == w + {model}
    case Restored(restored, missing) =>
      s' == s + Elements(restored) && w' == Elements(missing)
      && w == Elements(restored) + Elements(missing) && Elements(restored) !! Elements(missing)
    case Retried(restored, missing) =>
      s' == s + Elements(restored) && w' == w
      && w == Elements(restored) + Elements(missing) && Elements(restored) != {}
  }

  lemma ListsOnSets(a: seq<string>, b: seq<string>, s: set<string>, x: string)
    ensures Elements(a + b) == Elements(a) + Elements(b)
    ensures Elements(Without(a, s)) == Elements(a) - s
    ensures Elements([]) == {} && Elements([x]) == {x}
    ensures a != [] ==> Elements(a) != {}
  {
    if a != [] {
      assert a[0] in Elements(a);
    }
  }

  lemma EffectOnSets(row: Row, next: Row, f: Effect)
    requires Shows(row, next, f)
    ensures OnSets(Elements(Names(row)), Elements(row.watched), Elements(Names(next)), Elements(next.watched), f)
  {
    hide Without, ColumnNames, PruneReasons, Elements;
    var names := Names(row);
    match f
    case Moved(model) =>
      MemberOfElements(names, model);
      MemberOfElements(row.watched, model);
      ListsOnSets(names, [], {model}, model);
      ListsOnSets(row.watched, [model], {}, model);
      ListsOnSets(row.watched, [], {}, model);
    case Restored(restored, missing) =>
      ListsOnSets(names, Without(restored, Elements(names)), {}, "");
      ListsOnSets(restored, missing, Elements(names), "");
    case Retried(restored, missing) =>
      ListsOnSets(names, Without(restored, Elements(names)), {}, "");
      ListsOnSets(restored, missing, Elements(names), "");
      ListsOnSets(missing, restored, {}, "");
    case DroppedWatch =>
      ListsOnSets([], [], {}, "");
    case _ =>
  }

  lemma MemberOfElements(xs: seq<string>, x: string)
    ensures x in Elements(xs) <==> x in xs
  {
  }

  lemma UniverseOfSets(s: set<string>, w: set<string>, s': set<string>, w': set<string>, f: Effect)
    requires OnSets(s, w, s', w', f)
    ensures !f.DroppedWatch? ==> s' + w' == s + w
    ensures f.DroppedWatch? ==> s' + w' + w == s + w
  {
  }

  lemma SeparationOfSets(s: set<string>, w: set<string>, s': set<string>, w': set<string>, f: Effect)
    requires OnSets(s, w, s', w', f) && s !! w
    ensures s' !! w' <==> !f.Retried?
    ensures f.Retried? ==> s' * w' == Elements(f.restored)
  {
    if f.Retried? {
      var m :| m in Elements(f.restored);
      assert m in s' * w';
    }
  }

  /** No step but an expiry changes the set of models the channel knows about; an expiry keeps the
      served models and drops exactly the watch list. */
  lemma StepKeepsUniverse(row: Row, e: Event)
    requires Tracked(row)
    ensures !ExpiresAt(row, e) ==> Universe(Step(row, e)) == Universe(row)
    ensures ExpiresAt(row, e) ==>
              && Step(row, e).models == row.models
              && Step(row, e).watched == []
              && Universe(Step(row, e)) + Elements(row.watched) == Universe(row)
  {
    hide Normalize, Within, Without, Join, Fields, PruneReasons;
    var next := Step(row, e);
    StepShowsEffect(row, e);
    EffectOnSets(row, next, EffectOf(row, e));
    UniverseOfSets(Elements(Names(row)), Elements(row.watched),
                   Elements(Names(next)), Elements(next.watched), EffectOf(row, e));
  }

  lemma EffectKeepsReasons(row: Row, next: Row, f: Effect)
    requires Tracked(row) && Shows(row, next, f) && !f.Moved?
    ensures forall m :: m in next.watched ==>
              (m in next.reasons <==> m in row.reasons)
              && (m in row.reasons ==> next.reasons[m] == row.reasons[m])
  {
  }

  /** A recheck loses no reason of a model that stays watched and never invents one. */
  lemma RecheckKeepsReasons(row: Row, e: Event)
    requires Tracked(row) && e.Recheck?
    ensures forall m :: m in Step(row, e).watched ==>
              (m in Step(row, e).reasons <==> m in row.reasons)
              && (m in row.reasons ==> Step(row, e).reasons[m] == row.reasons[m])
  {
    hide Normalize, Within, Without, Join, Fields, PruneReasons;
    StepShowsEffect(row, e);
    EffectKeepsReasons(row, Step(row, e), EffectOf(row, e));
  }

  /** A removal schedules the next recheck no later than its own interval, and never postpones one
      that is already scheduled in the future. */
  lemma RemovalNeverPostpones(row: Row, e: Event)
    ensures RemovesAt(row, e) ==>
              && e.now < Step(row, e).recheckAt <= e.now + RecheckIntervalFor(e.cfg, e.reason)
              && (row.recheckAt > e.now ==> Step(row, e).recheckAt <= row.recheckAt)
              && RemovalOf(row, e).1.nextRecheckAt == Step(row, e).recheckAt
  {
  }

  /** How a removal ends, in the order of its checks: exactly when the channel is out of reach, does not
      serve the model, serves nothing else, or has its watch list full, and when it is committed. Only a
      committed removal changes the row. */
  lemma RemovalEndsExactly(row: Row, e: Event)
    requires Tracked(row) && e.Remove?
    ensures var outcome := RemovalOf(row, e).1;
            var reachable := row.enabled && !row.removalDisabled;
            var served := e.model in ColumnNames(row.models);
            var only := |ColumnNames(row.models)| == 1;
            var full := && (e.reason == Missing ==> e.cfg.missingCapEnabled)
                        && |row.watched| >= if e.cfg.maxRemoved >= 1 then e.cfg.maxRemoved else 5;
            && (outcome == RemovalUnavailable <==> !reachable)
            && (outcome == AlreadyGone <==> reachable && !served && e.commitOk)
            && (outcome == LastModel <==> reachable && served && only)
            && (outcome == CapReached(|row.watched|) <==> reachable && served && !only && full)
            && (outcome.CapReached? ==> outcome.removedCount == |row.watched|)
            && (outcome.Removed? <==> reachable && served && !only && !full && e.commitOk)
            && (outcome == RemovalFailed <==>
                  reachable && !e.commitOk && !(served && only) && !(served && full))
            && (outcome.Removed? ==> outcome.remaining == |ColumnNames(row.models)| - 1)
            && (!outcome.Removed? ==> Step(row, e) == row)
  {
    hide Normalize, Within, Without, Join, Fields, ColumnNames, Subtract;
    NormalizeFixed(row.watched);
    if e.model in Names(row) {
      SubtractOne(Names(row), e.model);
    }
  }

  /** The recheck that a committed removal schedules: after the interval of its reason, with the default
      for an interval below a minute, unless an earlier one is still to come. */
  lemma RemovalSchedulesRecheck(row: Row, e: Event)
    requires RemovesAt(row, e)
    ensures var at := Step(row, e).recheckAt;
            var cfg := e.cfg;
            var due := e.now + match e.reason
                               case Missing => if cfg.missingInterval >= 60 then cfg.missingInterval else 600
                               case RateLimit => if cfg.rateLimitInterval >= 60 then cfg.rateLimitInterval else 180
                               case Forbidden => if cfg.forbiddenInterval >= 60 then cfg.forbiddenInterval else 1800;
            && (e.now < row.recheckAt < due ==> at == row.recheckAt)
            && (!(e.now < row.recheckAt < due) ==> at == due)
            && RemovalOf(row, e).1.nextRecheckAt == at
  {
    hide Normalize, Within, Without, Join, Fields, ColumnNames, Subtract, Merge, SetReason;
  }

  /** How a recheck ends, in the order of its checks; a watch list that outlived a day is dropped before
      the upstream list is even looked at. */
  lemma RecheckEndsExactly(row: Row, e: Event)
    requires Tracked(row) && e.Recheck?
    ensures var outcome := RecheckOf(row, e).1;
            var watching := row.enabled && row.watched != [];
            var overdue := row.removedAt > 0 && e.now - row.removedAt > 86400;
            var listed := e.fetch.Some? && e.fetch.value != [];
            var back := listed && exists m :: m in row.watched
                                    && (if m in e.mapping then e.mapping[m] else m) in e.fetch.value;
            && (outcome == RecheckUnavailable <==> !row.enabled)
            && (outcome == WatchCleared <==> row.enabled && row.watched == [])
            && (outcome == RecheckFailed <==> watching && !e.storeOk)
            && (outcome == Expired <==> watching && e.storeOk && overdue)
            && (outcome == Deferred <==> watching && e.storeOk && !overdue && !listed)
            && (outcome.RetryNextRound? <==> watching && e.storeOk && !overdue && back && !e.abilitiesOk)
            && (outcome.Rechecked? <==> watching && e.storeOk && !overdue && listed && (back ==> e.abilitiesOk))
            && (outcome in {RecheckUnavailable, WatchCleared, RecheckFailed} ==> Step(row, e) == row)
  {
    hide Normalize, Within, Without, Join, Fields, PruneReasons, RestoredOf, StillMissingOf, RestoredRow, RetryRow;
    if e.fetch.Some? {
      var upstream := Elements(e.fetch.value);
      ClassificationPartition(row.watched, upstream, e.mapping);
      var restored := RestoredOf(row.watched, upstream, e.mapping);
      if restored != [] {
        assert restored[0] in restored;
      }
    }
  }

  /** When the next recheck comes, and what becomes of the removal time: a deferral only moves the
      recheck; nothing still missing ends the watch, and otherwise the next round comes after the interval
      of missing models; a failed rebuild counts it from a clock read afterwards. */
  lemma RecheckSchedulesNext(row: Row, e: Event)
    requires e.Recheck?
    ensures var next := Step(row, e);
            var pause := if e.cfg.missingInterval >= 60 then e.cfg.missingInterval else 600;
            match RecheckOf(row, e).1
            case Deferred => next == row.(recheckAt := e.now + pause)
            case Rechecked(_, missing) =>
              && next.recheckAt == (if missing == [] then 0 else e.now + pause)
              && next.removedAt == (if missing == [] then 0 else row.removedAt)
            case RetryNextRound(_, missing) =>
              && next.recheckAt == e.retryNow + pause
              && next.removedAt == (if missing == [] then 0 else row.removedAt)
            case Expired =>
              next == row.(watched := [], reasons := map[], recheckAt := 0, removedAt := 0)
            case _ => next == row
  {
    hide Normalize, Within, Without, Join, Fields, PruneReasons, RestoredOf, StillMissingOf;
  }

  lemma EffectKeepsServing(row: Row, next: Row, f: Effect)
    requires Tracked(row) && Shows(row, next, f) && Names(row) != []
    ensures Names(next) != []
  {
  }

  lemma EffectOnWatchLength(row: Row, next: Row, f: Effect)
    requires Tracked(row) && Shows(row, next, f)
    ensures |next.watched| <= |row.watched| + if f.Moved? && f.model !in row.watched then 1 else 0
  {
  }

  /** A step lengthens the watch list only by a removal, and one subject to the cap only while the
      list is below it; rechecks never lengthen it. */
  lemma StepGrowsWatchOnlyBelowCap(row: Row, e: Event)
    requires Tracked(row)
    ensures |Step(row, e).watched| <= |row.watched| + 1
    ensures |Step(row, e).watched| > |row.watched| ==>
              RemovesAt(row, e) && (CapApplies(e.cfg, e.reason) ==> |row.watched| < MaxRemoved(e.cfg))
  {
    hide Normalize, Within, Without, Join, Fields, PruneReasons;
    NormalizeFixed(row.watched);
    StepShowsEffect(row, e);
    EffectOnWatchLength(row, Step(row, e), EffectOf(row, e));
  }

  /** Once the watch list is full, a removal that would otherwise succeed goes through exactly when
      its reason is exempt from the cap; so an exempt reason can push the list beyond it. */
  lemma FullWatchListDecides(row: Row, e: Event)
    requires Tracked(row) && e.Remove? && e.commitOk
    requires row.enabled && !row.removalDisabled && e.model in Names(row) && |Names(row)| > 1
    requires |row.watched| >= MaxRemoved(e.cfg)
    ensures RemovesAt(row, e) <==> !CapApplies(e.cfg, e.reason)
    ensures RemovesAt(row, e) && e.model !in row.watched ==>
              |Step(row, e).watched| == |row.watched| + 1 > MaxRemoved(e.cfg)
  {
    hide Normalize, Within, Without, Join, Fields;
    NormalizeFixed(row.watched);
    if RemovesAt(row, e) {
      RemovalMovesModel(row, e);
    }
  }

  /** Served and watched models have nothing in common. */
  ghost predicate Separated(row: Row) {
    Elements(Names(row)) !! Elements(row.watched)
  }

  /** A single step keeps served and watched models apart unless its abilities rebuild fails; then
      the two lists share exactly the models that were to be restored. */
  lemma StepSeparation(row: Row, e: Event)
    requires Tracked(row) && Separated(row)
    ensures Separated(Step(row, e)) <==> !EffectOf(row, e).Retried?
    ensures EffectOf(row, e).Retried? ==>
              Elements(Names(Step(row, e))) * Elements(Step(row, e).watched)
              == Elements(EffectOf(row, e).restored)
  {
    hide Normalize, Within, Without, Join, Fields, PruneReasons;
    var next := Step(row, e);
    StepShowsEffect(row, e);
    EffectOnSets(row, next, EffectOf(row, e));
    SeparationOfSets(Elements(Names(row)), Elements(row.watched),
                     Elements(Names(next)), Elements(next.watched), EffectOf(row, e));
  }

  // ----- whole runs -----

  lemma {:induction false} RunKeepsTracked(init: Row, events: seq<Event>, k: nat)
    requires Tracked(init) && k <= |events|
    ensures Tracked(StateAt(init, events, k))
  {
    hide Normalize, Within, Without, Join, Fields, PruneReasons;
    if k > 0 {
      RunKeepsTracked(init, events, k - 1);
      StepKeepsTracked(StateAt(init, events, k - 1), events[k - 1]);
    }
  }

  /** Event `k` of the run is a recheck that gives up on the watch list. */
  predicate ExpiryIn(init: Row, events: seq<Event>, k: nat)
    requires k < |events|
  {
    ExpiresAt(StateAt(init, events, k), events[k])
  }

  /** Event `k` of the run is a committed removal. */
  predicate RemovalIn(init: Row, events: seq<Event>, k: nat)
    requires k < |events|
  {
    RemovesAt(StateAt(init, events, k), events[k])
  }

  /** Everything that expiries dropped from the watch list in the first `k` events. */
  ghost function Dropped(init: Row, events: seq<Event>, k: nat): set<string>
    requires k <= |events|
  {
    if k == 0 then
      {}
    else
      Dropped(init, events, k - 1)
      + (if ExpiryIn(init, events, k - 1) then Elements(StateAt(init, events, k - 1).watched) else {})
  }

  /** Conservation: over any run the served and watched models together, plus what expiries
      dropped, are exactly the models the run started with. */
  lemma {:induction false} RunConservesModels(init: Row, events: seq<Event>, k: nat)
    requires Tracked(init) && k <= |events|
    ensures Universe(StateAt(init, events, k)) + Dropped(init, events, k) == Universe(init)
  {
    hide Normalize, Within, Without, Join, Fields, PruneReasons, RemovalStep, RecheckStep, Step, ExpiresAt, Universe,
      Elements, Tracked;
    if k > 0 {
      RunConservesModels(init, events, k - 1);
      RunKeepsTracked(init, events, k - 1);
      StepKeepsUniverse(StateAt(init, events, k - 1), events[k - 1]);
    }
  }

  /** Without an expiry nothing is ever lost. */
  lemma {:induction false} RunWithoutExpiryLosesNothing(init: Row, events: seq<Event>, k: nat)
    requires Tracked(init) && k <= |events|
    requires forall j: nat :: j < k ==> !ExpiryIn(init, events, j)
    ensures Universe(StateAt(init, events, k)) == Universe(init)
  {
    hide Normalize, Within, Without, Join, Fields, PruneReasons, RemovalStep, RecheckStep;
    if k > 0 {
      RunWithoutExpiryLosesNothing(init, events, k - 1);
      RunKeepsTracked(init, events, k - 1);
      assert !ExpiryIn(init, events, k - 1);
      StepKeepsUniverse(StateAt(init, events, k - 1), events[k - 1]);
    }
  }

  /** The stored removal time, while set, is the time of the last committed removal. */
  lemma {:induction false} RemovedAtIsLastRemoval(init: Row, events: seq<Event>, k: nat) returns (last: nat)
    requires Fresh(init) && k <= |events|
    ensures StateAt(init, events, k).removedAt > 0 ==>
              && last < k
              && RemovalIn(init, events, last)
              && events[last].now == StateAt(init, events, k).removedAt
              && (forall j: nat :: last < j < k ==> !RemovalIn(init, events, j))
  {
    hide Normalize, Within, Without, Join, Fields, PruneReasons, RemovalStep, RecheckStep;
    last := 0;
    if k > 0 {
      last := RemovedAtIsLastRemoval(init, events, k - 1);
      RunKeepsTracked(init, events, k - 1);
      var before := StateAt(init, events, k - 1);
      if RemovalIn(init, events, k - 1) {
        RemovalMovesModel(before, events[k - 1]);
        last := k - 1;
      } else {
        RemovedAtOnlySetByRemoval(before, events[k - 1]);
      }
    }
  }

  lemma RemovedAtOnlySetByRemoval(row: Row, e: Event)
    requires !RemovesAt(row, e)
    ensures Step(row, e).removedAt == 0 || Step(row, e).removedAt == row.removedAt
  {
  }

  /** Event `last` is the last committed removal before event `k`. */
  ghost predicate LastRemoval(init: Row, events: seq<Event>, last: nat, k: nat)
    requires k <= |events|
  {
    last < k && RemovalIn(init, events, last) && forall j: nat :: last < j < k ==> !RemovalIn(init, events, j)
  }

  /** Event `k` is a recheck that finds every watched model back and fails to rebuild the abilities. */
  predicate ForgetsTimeIn(init: Row, events: seq<Event>, k: nat)
    requires k < |events|
  {
    events[k].Recheck? &&
    var outcome := RecheckOf(StateAt(init, events, k), events[k]).1;
    outcome.RetryNextRound? && outcome.notReturned == []
  }

  lemma StepFromEmptyWatch(row: Row, e: Event)
    requires !RemovesAt(row, e) && row.watched == []
    ensures Step(row, e).watched == []
  {
  }

  lemma StepKeepsTime(row: Row, e: Event)
    requires Tracked(row) && !RemovesAt(row, e) && Step(row, e).watched != []
    ensures Step(row, e).removedAt
         == if e.Recheck? && RecheckOf(row, e).1.RetryNextRound? && RecheckOf(row, e).1.notReturned == [] then 0
            else row.removedAt
  {
    hide Normalize, Within, Without, Join, Fields, PruneReasons, RestoredOf, StillMissingOf;
    if e.Recheck? {
      RecheckSchedulesNext(row, e);
      StepShowsEffect(row, e);
    }
  }

  /** While models are watched there was a removal, and its time is kept unless a recheck has forgotten it. */
  lemma {:induction false} WatchedSince(init: Row, events: seq<Event>, k: nat) returns (last: nat)
    requires Fresh(init) && k <= |events| && StateAt(init, events, k).watched != []
    ensures LastRemoval(init, events, last, k)
    ensures if exists j: nat :: last < j < k && ForgetsTimeIn(init, events, j)
            then StateAt(init, events, k).removedAt == 0
            else StateAt(init, events, k).removedAt == events[last].now
  {
    hide Normalize, Within, Without, Join, Fields, PruneReasons, RemovalStep, RecheckStep;
    RunKeepsTracked(init, events, k - 1);
    var before, e := StateAt(init, events, k - 1), events[k - 1];
    if RemovalIn(init, events, k - 1) {
      RemovalMovesModel(before, e);
      last := k - 1;
    } else {
      if before.watched == [] {
        StepFromEmptyWatch(before, e);
      }
      last := WatchedSince(init, events, k - 1);
      StepKeepsTime(before, e);
      if j: nat :| last < j < k && ForgetsTimeIn(init, events, j) {
        assert j < k - 1 || ForgetsTimeIn(init, events, k - 1);
      } else {
        assert !ForgetsTimeIn(init, events, k - 1);
      }
    }
  }

  lemma OneLastRemoval(init: Row, events: seq<Event>, i: nat, j: nat, k: nat)
    requires k <= |events| && LastRemoval(init, events, i, k) && LastRemoval(init, events, j, k)
    ensures i == j
  {
  }

  /** In every run a recheck of an enabled channel that watches models drops its watch list if and only if
      the last committed removal is more than a day ago and no recheck since then has found every model
      back and failed to rebuild the abilities. */
  lemma WatchExpiresIff(init: Row, events: seq<Event>, k: nat)
    requires Fresh(init) && k < |events| && events[k].Recheck? && events[k].storeOk
    requires StateAt(init, events, k).enabled && StateAt(init, events, k).watched != []
    ensures var row, next := StateAt(init, events, k), StateAt(init, events, k + 1);
            && (next.watched == [] && next.models == row.models && next.reasons == map[]
                && next.recheckAt == 0 && next.removedAt == 0 && RecheckOf(row, events[k]).1 == Expired
                <==> exists last: nat ::
                       && LastRemoval(init, events, last, k)
                       && 0 < events[last].now && events[k].now - events[last].now > 86400
                       && forall j: nat :: last < j < k ==> !ForgetsTimeIn(init, events, j))
  {
    hide Normalize, Within, Without, Join, Fields, PruneReasons, RemovalStep, RecheckStep, RemovalIn, ForgetsTimeIn;
    RunKeepsTracked(init, events, k);
    var row := StateAt(init, events, k);
    RecheckEndsExactly(row, events[k]);
    RecheckSchedulesNext(row, events[k]);
    var last := WatchedSince(init, events, k);
    forall other: nat | LastRemoval(init, events, other, k)
      ensures other == last
    {
      OneLastRemoval(init, events, other, last, k);
    }
  }

  /** A watch list is dropped only more than 24 hours after the last removal of the run. */
  lemma ExpiryOnlyAfterHold(init: Row, events: seq<Event>, k: nat)
    requires Fresh(init) && k < |events| && ExpiryIn(init, events, k)
    ensures exists last: nat :: LastRemoval(init, events, last, k) && events[k].now - events[last].now > 86400
  {
    hide Normalize, Within, Without, Join, Fields, PruneReasons, RemovalStep, RecheckStep, RemovalIn;
    RunKeepsTracked(init, events, k);
    RecheckEndsExactly(StateAt(init, events, k), events[k]);
    var last := RemovedAtIsLastRemoval(init, events, k);
    assert LastRemoval(init, events, last, k);
  }

  /** No run empties a channel that served at least one model. */
  lemma {:induction false} RunNeverEmptiesChannel(init: Row, events: seq<Event>, k: nat)
    requires Tracked(init) && Names(init) != [] && k <= |events|
    ensures Names(StateAt(init, events, k)) != []
  {
    hide Normalize, Within, Without, Join, Fields, PruneReasons;
    if k > 0 {
      RunNeverEmptiesChannel(init, events, k - 1);
      RunKeepsTracked(init, events, k - 1);
      var row := StateAt(init, events, k - 1);
      StepShowsEffect(row, events[k - 1]);
      EffectKeepsServing(row, Step(row, events[k - 1]), EffectOf(row, events[k - 1]));
    }
  }

  /** When every removal is subject to the cap, the watch list never exceeds it. */
  lemma {:induction false} RunRespectsCap(init: Row, events: seq<Event>, cap: int, k: nat)
    requires Tracked(init) && |init.watched| <= cap && k <= |events|
    requires forall e :: e in events && e.Remove? ==> CapApplies(e.cfg, e.reason) && MaxRemoved(e.cfg) <= cap
    ensures |StateAt(init, events, k).watched| <= cap
  {
    hide Normalize, Within, Without, Join, Fields, PruneReasons;
    if k > 0 {
      RunRespectsCap(init, events, cap, k - 1);
      RunKeepsTracked(init, events, k - 1);
      assert events[k - 1] in events;
      StepGrowsWatchOnlyBelowCap(StateAt(init, events, k - 1), events[k - 1]);
    }
  }

  /** Over a run without failed abilities rebuilds, served and watched models stay apart and both
      lists stay duplicate-free. */
  lemma {:induction false} RunKeepsSeparation(init: Row, events: seq<Event>, k: nat)
    requires Tracked(init) && Separated(init) && k <= |events|
    requires forall e :: e in events && e.Recheck? ==> e.abilitiesOk
    ensures Separated(StateAt(init, events, k))
    ensures NoDuplicates(Names(StateAt(init, events, k))) && NoDuplicates(StateAt(init, events, k).watched)
  {
    hide Normalize, Within, Without, Join, Fields, PruneReasons, Step, NoDuplicates;
    RunKeepsTracked(init, events, k);
    if k > 0 {
      RunKeepsSeparation(init, events, k - 1);
      RunKeepsTracked(init, events, k - 1);
      assert events[k - 1] in events;
      StepSeparation(StateAt(init, events, k - 1), events[k - 1]);
    }
  }

  // ----- what one call undoes -----

  lemma ClassifyOne(model: string, upstream: set<string>, mapping: Mapping)
    requires model != "" && IsTrimmed(model, SPACES) && Target(mapping, model) in upstream
    ensures RestoredOf([model], upstream, mapping) == [model]
    ensures StillMissingOf([model], upstream, mapping) == []
  {
    NormalizeOne(model);
    assert model in Returned([model], upstream, mapping);
    WithinAll([model], Returned([model], upstream, mapping));
    WithoutAll([model], Returned([model], upstream, mapping));
  }

  /** On a channel with nothing removed, removing a model and then seeing it back upstream restores
      the row; only the order of the models changes, the model going to the end. */
  lemma RemoveThenRestore(row: Row, remove: Event, recheck: Event)
    requires Tracked(row) && row.watched == [] && RemovesAt(row, remove)
    requires recheck.Recheck? && recheck.storeOk && recheck.abilitiesOk
    requires recheck.now - remove.now <= 86400
    requires FetchOk(recheck.fetch) && Target(recheck.mapping, remove.model) in recheck.fetch.value
    ensures var final := Step(Step(row, remove), recheck);
            && Names(final) == Without(Names(row), {remove.model}) + [remove.model]
            && Elements(Names(final)) == Elements(Names(row))
            && final == row.(models := final.models, removedAt := 0)
  {
    hide Normalize, Within, Without, Join, Fields;
    var model := remove.model;
    var mid := RemovalOf(row, remove).0;
    RemovalMovesModel(row, remove);
    assert mid.watched == [model];
    ClassifyOne(model, Elements(recheck.fetch.value), recheck.mapping);
    var final := RestoredRow(mid, [model], [], recheck.cfg, recheck.now);
    assert Step(mid, recheck) == final;
    assert forall m :: m in [model] ==> m == model;
    RestoredNames(mid.models, [model]);
    WithoutNone([model], Elements(Names(mid)));
  }

  lemma RetryClassification(missing: seq<string>, restored: seq<string>, upstream: set<string>, mapping: Mapping)
    requires IsNormal(missing + restored)
    requires forall m :: m in missing ==> Target(mapping, m) !in upstream
    requires forall m :: m in restored ==> Target(mapping, m) in upstream
    ensures RestoredOf(missing + restored, upstream, mapping) == restored
    ensures StillMissingOf(missing + restored, upstream, mapping) == missing
  {
    var both := missing + restored;
    NormalizeFixed(both);
    var back := Returned(both, upstream, mapping);
    WithoutSplit(missing, restored, back);
    WithinSplit(missing, restored, back);
    WithoutNone(missing, back);
    WithoutAll(restored, back);
    WithinNone(missing, back);
    WithinAll(restored, back);
  }

  lemma {:induction false} WithinSplit(a: seq<string>, b: seq<string>, s: set<string>)
    ensures Within(a + b, s) == Within(a, s) + Within(b, s)
  {
    if a == [] {
      assert a + b == b;
    } else {
      assert (a + b)[1..] == a[1..] + b;
      WithinSplit(a[1..], b, s);
    }
  }

  lemma RestoreTwice(column: string, restored: seq<string>)
    requires IsNormal(restored) && SepFree(restored, COMMA)
    ensures ExtendedColumn(ExtendedColumn(column, restored), restored) == ExtendedColumn(column, restored)
  {
    var once := ExtendedColumn(column, restored);
    RestoredNames(column, restored);
    NormalizeFixed(restored);
    NormalizeFixed(ColumnNames(once));
    WithoutAll(restored, Elements(ColumnNames(once)));
  }

  lemma RestoreAfterRetry(row: Row, restored: seq<string>, missing: seq<string>, cfg: Config,
                          now: nat, retryNow: nat, cfg': Config, now': nat)
    requires Tracked(row) && Splits(row.watched, restored, missing)
    ensures var healed := RestoredRow(RetryRow(row, restored, missing, cfg, now, retryNow),
                restored, missing, cfg', now');
            healed == RestoredRow(row, restored, missing, cfg, now).(recheckAt := healed.recheckAt)
            && (healed.recheckAt > 0 <==> missing != [])
  {
    RestoreTwice(row.models, restored);
    MergeDisjoint(missing, restored);
    assert PruneReasons(PruneReasons(row.reasons, missing + restored), missing) == PruneReasons(row.reasons, missing);
  }

  /** After a failed abilities rebuild something is always watched; if nothing was still missing, no
      removal time is kept, so that watch list cannot expire before the next removal. */
  lemma FailedRebuildForgetsTime(row: Row, e: Event)
    requires Tracked(row) && e.Recheck?
    ensures var outcome := RecheckOf(row, e).1;
            outcome.RetryNextRound? ==>
              && Step(row, e).watched != []
              && (Step(row, e).removedAt == 0 <==> row.removedAt == 0 || outcome.notReturned == [])
              && (outcome.notReturned == [] ==> forall later :: !ExpiresAt(Step(row, e), later))
  {
    hide Normalize, Within, Without, Join, Fields, PruneReasons;
    StepShowsEffect(row, e);
  }

  /** A failed abilities rebuild is healed by the next round: if that round sees the same upstream
      list and succeeds, the row is what a single successful recheck would have left, up to the
      time of the next recheck. */
  lemma RetryHeals(row: Row, failed: Event, retry: Event)
    requires Tracked(row) && failed.Recheck? && RecheckOf(row, failed).1.RetryNextRound?
    requires retry.Recheck? && retry.fetch == failed.fetch && retry.mapping == failed.mapping
    requires retry.abilitiesOk && retry.storeOk && (row.removedAt == 0 || retry.now - row.removedAt <= 86400)
    ensures var atOnce := Step(row, failed.(abilitiesOk := true));
            var healed := Step(Step(row, failed), retry);
            && healed == atOnce.(recheckAt := healed.recheckAt)
            && (healed.recheckAt > 0 <==> atOnce.recheckAt > 0)
  {
    hide Normalize, Within, Without, Join, Fields, PruneReasons;
    var upstream := Elements(failed.fetch.value);
    var restored := RestoredOf(row.watched, upstream, failed.mapping);
    var missing := StillMissingOf(row.watched, upstream, failed.mapping);
    ClassificationPartition(row.watched, upstream, failed.mapping);
    var mid := RetryRow(row, restored, missing, failed.cfg, failed.now, failed.retryNow);
    assert Step(row, failed) == mid;
    assert Step(row, failed.(abilitiesOk := true)) == RestoredRow(row, restored, missing, failed.cfg, failed.now);
    MergeDisjoint(missing, restored);
    assert restored[0] in mid.watched;
    MissingTargets(row.watched, upstream, failed.mapping);
    RetryClassification(missing, restored, upstream, failed.mapping);
    assert RecheckOf(mid, retry)
        == (RestoredRow(mid, restored, missing, retry.cfg, retry.now), Rechecked(restored, missing));
    RestoreAfterRetry(row, restored, missing, failed.cfg, failed.now, failed.retryNow, retry.cfg, retry.now);
  }

  lemma MissingTargets(watched: seq<string>, upstream: set<string>, mapping: Mapping)
    requires IsNormal(watched)
    ensures forall m :: m in StillMissingOf(watched, upstream, mapping) ==> Target(mapping, m) !in upstream
  {
    NormalizeFixed(watched);
  }
}
