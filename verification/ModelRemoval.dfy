/** The two row-locked transactions on a channel's model list: removing a model after an upstream
    error, and rechecking the removed models later. A locked transaction is one atomic step. */
module ModelRemoval {
  import opened Options
  import opened Text
  import opened ModelNames

  datatype Reason = Missing | RateLimit | Forbidden

  const MAX_HOLD_SECONDS: int := 86400
  const MAX_REMOVED_FALLBACK: int := 5

  /** The option values as stored; the functions below apply the fallbacks. */
  datatype Config = Config(
    missingCapEnabled: bool,
    maxRemoved: int,
    missingInterval: int,
    rateLimitInterval: int,
    forbiddenInterval: int)

  function MissingRecheckInterval(cfg: Config): (r: int)
    ensures r >= 60
  {
    if cfg.missingInterval < 60 then 600 else cfg.missingInterval
  }

  function RecheckIntervalFor(cfg: Config, reason: Reason): (r: int)
    ensures r >= 60
  {
    match reason
    case RateLimit => if cfg.rateLimitInterval < 60 then 180 else cfg.rateLimitInterval
    case Forbidden => if cfg.forbiddenInterval < 60 then 1800 else cfg.forbiddenInterval
    case Missing => MissingRecheckInterval(cfg)
  }

  function MaxRemoved(cfg: Config): (r: int)
    ensures r >= 1
  {
    if cfg.maxRemoved >= 1 then cfg.maxRemoved else MAX_REMOVED_FALLBACK
  }

  predicate CapApplies(cfg: Config, reason: Reason) {
    reason == Missing ==> cfg.missingCapEnabled
  }

  /** The columns of a channel row that the transactions read and write. `models` is the
      comma-separated column; a timestamp of 0 means that it is not set. */
  datatype Row = Row(
    enabled: bool,
    removalDisabled: bool,
    models: string,
    watched: seq<string>,
    reasons: map<string, Reason>,
    removedAt: int,
    recheckAt: int)

  function Names(row: Row): (r: seq<string>)
    ensures IsNormal(r) && SepFree(r, COMMA)
  {
    ColumnNames(row.models)
  }

  /** The upstream name that a local model is served under. */
  function Target(mapping: Mapping, model: string): string {
    if model in mapping then mapping[model] else model
  }

  // ----- the pure helpers -----

  function SetReason(reasons: map<string, Reason>, model: string, reason: Reason): map<string, Reason> {
    var name := TrimSpace(model);
    if name == "" then reasons else reasons[name := reason]
  }

  function PruneReasons(reasons: map<string, Reason>, watched: seq<string>): map<string, Reason> {
    map m | m in watched && m in reasons :: reasons[m]
  }

  method PruneModelRemovalReasons(reasons: map<string, Reason>, watched: seq<string>)
    returns (pruned: map<string, Reason>)
    ensures pruned == PruneReasons(reasons, watched)
  {
    pruned := map[];
    for i := 0 to |watched|
      invariant pruned == PruneReasons(reasons, watched[..i])
    {
      assert watched[..i + 1] == watched[..i] + [watched[i]];
      if watched[i] in reasons {
        pruned := pruned[watched[i] := reasons[watched[i]]];
      }
    }
    assert watched[..|watched|] == watched;
  }

  /** The names whose upstream target is listed again. */
  function Returned(names: seq<string>, upstream: set<string>, mapping: Mapping): set<string> {
    set m | m in names && Target(mapping, m) in upstream
  }

  function RestoredOf(watched: seq<string>, upstream: set<string>, mapping: Mapping): seq<string> {
    var names := Normalize(watched);
    Within(names, Returned(names, upstream, mapping))
  }

  function StillMissingOf(watched: seq<string>, upstream: set<string>, mapping: Mapping): seq<string> {
    var names := Normalize(watched);
    Without(names, Returned(names, upstream, mapping))
  }

  lemma ClassifyStep(names: seq<string>, i: nat, back: set<string>)
    requires i < |names|
    ensures Within(names[..i + 1], back)
         == Within(names[..i], back) + (if names[i] in back then [names[i]] else [])
    ensures Without(names[..i + 1], back)
         == Without(names[..i], back) + (if names[i] in back then [] else [names[i]])
  {
    assert names[..i + 1] == names[..i] + [names[i]];
    WithoutSnoc(names[..i], names[i], back);
    WithinSnoc(names[..i], names[i], back);
  }

  lemma {:induction false} WithinSnoc(xs: seq<string>, x: string, s: set<string>)
    ensures Within(xs + [x], s) == Within(xs, s) + (if x in s then [x] else [])
  {
    if xs != [] {
      WithinSnoc(xs[1..], x, s);
      assert (xs + [x])[1..] == xs[1..] + [x];
    }
  }

  method ClassifyWatchedModels(watched: seq<string>, upstream: set<string>, mapping: Mapping)
    returns (restored: seq<string>, stillMissing: seq<string>)
    ensures restored == RestoredOf(watched, upstream, mapping)
    ensures stillMissing == StillMissingOf(watched, upstream, mapping)
  {
    restored, stillMissing := [], [];
    var names := Normalize(watched);
    ghost var back := Returned(names, upstream, mapping);
    for i := 0 to |names|
      invariant restored == Within(names[..i], back)
      invariant stillMissing == Without(names[..i], back)
    {
      ClassifyStep(names, i, back);
      var target := names[i];
      if names[i] in mapping {
        target := mapping[names[i]];
      }
      if target in upstream {
        restored := restored + [names[i]];
      } else {
        stillMissing := stillMissing + [names[i]];
      }
    }
    assert names[..|names|] == names;
    NormalizeFixed(restored);
    NormalizeFixed(stillMissing);
    restored, stillMissing := Normalize(restored), Normalize(stillMissing);
  }

  // ----- the removal transaction -----

  datatype RemovalOutcome =
    | RemovalUnavailable
    | AlreadyGone
    | LastModel
    | CapReached(removedCount: int)
    | Removed(remaining: int, nextRecheckAt: int)
    | RemovalFailed

  function NextRecheckAt(row: Row, reason: Reason, cfg: Config, now: int): int {
    var due := now + RecheckIntervalFor(cfg, reason);
    if row.recheckAt > now && row.recheckAt < due then row.recheckAt else due
  }

  /** What a removal leaves in the row, and how it ended. `commitOk` is false when the database
      write or the abilities rebuild fails, which rolls the transaction back. */
  function RemovalStep(row: Row, model: string, reason: Reason, cfg: Config, now: int, commitOk: bool)
    : (Row, RemovalOutcome)
  {
    var names := Names(row);
    if !row.enabled || row.removalDisabled then
      (row, RemovalUnavailable)
    else if model !in names then
      (row, if commitOk then AlreadyGone else RemovalFailed)
    else if |names| <= 1 then
      (row, LastModel)
    else if CapApplies(cfg, reason) && |Normalize(row.watched)| >= MaxRemoved(cfg) then
      (row, CapReached(|Normalize(row.watched)|))
    else if !commitOk then
      (row, RemovalFailed)
    else
      var next := Subtract(names, [model]);
      var recheckAt := NextRecheckAt(row, reason, cfg, now);
      (row.(models := Join(next, COMMA),
            watched := Merge(row.watched, [model]),
            reasons := SetReason(row.reasons, model, reason),
            removedAt := now,
            recheckAt := recheckAt),
       Removed(|next|, recheckAt))
  }

  // ----- the recheck transaction -----

  datatype RecheckOutcome =
    | RecheckUnavailable
    | WatchCleared
    | Expired
    | Deferred
    | Rechecked(restored: seq<string>, stillMissing: seq<string>)
    | RetryNextRound(toRestore: seq<string>, notReturned: seq<string>)
    | RecheckFailed

  predicate FetchOk(fetch: Option<seq<string>>) {
    fetch.Some? && fetch.value != []
  }

  predicate WatchExpired(row: Row, now: int) {
    row.removedAt > 0 && now - row.removedAt > MAX_HOLD_SECONDS
  }

  /** What a recheck leaves in the row, and how it ended. `fetch` is the upstream list read before
      the lock was taken, `abilitiesOk` says whether the abilities rebuild succeeds, `retryNow` is
      the clock sampled after it failed, and `storeOk` is false when a database write fails. */
  function RecheckStep(row: Row, fetch: Option<seq<string>>, mapping: Mapping, cfg: Config,
                       now: int, retryNow: int, abilitiesOk: bool, storeOk: bool)
    : (Row, RecheckOutcome)
  {
    if !row.enabled then
      (row, RecheckUnavailable)
    else if row.recheckAt <= 0 || row.watched == [] then
      (row, WatchCleared)
    else if !storeOk then
      (row, RecheckFailed)
    else if WatchExpired(row, now) then
      (row.(watched := [], reasons := map[], recheckAt := 0, removedAt := 0), Expired)
    else if !FetchOk(fetch) then
      (row.(recheckAt := now + MissingRecheckInterval(cfg)), Deferred)
    else
      var upstream := Elements(fetch.value);
      var restored := RestoredOf(row.watched, upstream, mapping);
      var stillMissing := StillMissingOf(row.watched, upstream, mapping);
      if restored != [] && !abilitiesOk then
        (RetryRow(row, restored, stillMissing, cfg, now, retryNow), RetryNextRound(restored, stillMissing))
      else
        (RestoredRow(row, restored, stillMissing, cfg, now), Rechecked(restored, stillMissing))
  }

  /** The row with the returned models added back and only the others still watched. */
  function RestoredRow(row: Row, restored: seq<string>, stillMissing: seq<string>, cfg: Config, now: int): Row {
    row.(models := ExtendedColumn(row.models, restored),
         watched := stillMissing,
         reasons := PruneReasons(row.reasons, stillMissing),
         recheckAt := if stillMissing == [] then 0 else now + MissingRecheckInterval(cfg),
         removedAt := if stillMissing == [] then 0 else row.removedAt)
  }

  /** The row when the abilities rebuild failed: the models are back, and everything that was
      watched stays watched for the next round. */
  function RetryRow(row: Row, restored: seq<string>, stillMissing: seq<string>, cfg: Config,
                    now: int, retryNow: int): Row {
    var retryWatch := Merge(stillMissing, restored);
    RestoredRow(row, restored, stillMissing, cfg, now).(
      watched := retryWatch,
      reasons := PruneReasons(row.reasons, retryWatch),
      recheckAt := retryNow + MissingRecheckInterval(cfg))
  }

  lemma AddBackNothing(column: string, restored: seq<string>)
    requires restored == []
    ensures ExtendedColumn(column, restored) == column
  {
    NormalizeFixed(ColumnNames(column));
  }

  method AddBack(column: string, restored: seq<string>) returns (r: string)
    ensures r == ExtendedColumn(column, restored)
  {
    r := column;
    var originModels := ColumnNames(column);
    var mergedModels := MergeModelNames(originModels, restored);
    if |mergedModels| > |originModels| {
      r := Join(mergedModels, COMMA);
    }
  }

  // ----- the task around the removal transaction -----

  /** What the removal task does about the channel besides the row. */
  datatype Disposition =
    | NoAction
    | Notify
    | FallbackDisable
    | EscalateDisable

  /** The read-only checks made before the lock is taken, on an older snapshot of the row; `None`
      means that the transaction is attempted. */
  function Precheck(snapshot: Option<Row>, fetch: Option<seq<string>>, mapping: Mapping,
                    model: string, reason: Reason): Option<Disposition>
  {
    if snapshot.None? then
      Some(FallbackDisable)
    else if !snapshot.value.enabled then
      Some(NoAction)
    else if snapshot.value.removalDisabled || !FetchOk(fetch) then
      Some(FallbackDisable)
    else if reason == Missing && Target(mapping, model) in fetch.value then
      Some(FallbackDisable)
    else
      None
  }

  // ----- the row as the code updates it -----

  class ChannelRecord {
    var enabled: bool
    var removalDisabled: bool
    var models: string
    var watched: seq<string>
    var reasons: map<string, Reason>
    var removedAt: int
    var recheckAt: int

    constructor (row: Row)
      ensures View() == row
    {
      enabled, removalDisabled, models := row.enabled, row.removalDisabled, row.models;
      watched, reasons := row.watched, row.reasons;
      removedAt, recheckAt := row.removedAt, row.recheckAt;
    }

    function View(): Row
      reads this
    {
      Row(enabled, removalDisabled, models, watched, reasons, removedAt, recheckAt)
    }

    /** The removal transaction, under the row lock. */
    method RemoveModel(model: string, reason: Reason, cfg: Config, now: int, commitOk: bool)
      returns (outcome: RemovalOutcome)
      modifies this
      ensures View() == RemovalStep(old(View()), model, reason, cfg, now, commitOk).0
      ensures outcome == RemovalStep(old(View()), model, reason, cfg, now, commitOk).1
    {
      hide Normalize, Without, Fields, Join;
      if !enabled || removalDisabled {
        return RemovalUnavailable;
      }
      var localModels := ColumnNames(models);
      if model !in localModels {
        return if commitOk then AlreadyGone else RemovalFailed;
      }
      if |localModels| <= 1 {
        return LastModel;
      }
      if CapApplies(cfg, reason) {
        var removedCount := |Normalize(watched)|;
        if removedCount >= MaxRemoved(cfg) {
          return CapReached(removedCount);
        }
      }
      var nextModels := Subtract(localModels, [model]);
      var nextWatched := MergeModelNames(watched, [model]);
      var nextReasons := SetReason(reasons, model, reason);
      var nextRecheckAt := now + RecheckIntervalFor(cfg, reason);
      if recheckAt > now && recheckAt < nextRecheckAt {
        nextRecheckAt := recheckAt;
      }
      if !commitOk {
        return RemovalFailed;
      }
      models := Join(nextModels, COMMA);
      watched := nextWatched;
      reasons := nextReasons;
      removedAt := now;
      recheckAt := nextRecheckAt;
      return Removed(|nextModels|, nextRecheckAt);
    }

    /** The recheck transaction, under the row lock. */
    method Recheck(fetch: Option<seq<string>>, mapping: Mapping, cfg: Config,
                   now: int, retryNow: int, abilitiesOk: bool, storeOk: bool)
      returns (outcome: RecheckOutcome)
      modifies this
      ensures View() == RecheckStep(old(View()), fetch, mapping, cfg, now, retryNow, abilitiesOk, storeOk).0
      ensures outcome == RecheckStep(old(View()), fetch, mapping, cfg, now, retryNow, abilitiesOk, storeOk).1
    {
      hide Normalize, Within, Without, Fields, Join, PruneReasons, RestoredOf, StillMissingOf, ExtendedColumn, Merge,
           ColumnNames, MissingRecheckInterval, Elements;
      if !enabled {
        return RecheckUnavailable;
      }
      if recheckAt <= 0 || watched == [] {
        return WatchCleared;
      }
      if !storeOk {
        return RecheckFailed;
      }
      if removedAt > 0 && now - removedAt > MAX_HOLD_SECONDS {
        watched, reasons, recheckAt, removedAt := [], map[], 0, 0;
        return Expired;
      }
      if fetch.None? || fetch.value == [] {
        recheckAt := now + MissingRecheckInterval(cfg);
        return Deferred;
      }
      var upstream := Elements(fetch.value);
      var restored, stillMissing := ClassifyWatchedModels(watched, upstream, mapping);
      var originalReasons := reasons;
      if |restored| > 0 {
        models := AddBack(models, restored);
      } else {
        AddBackNothing(models, restored);
      }
      watched := stillMissing;
      reasons := PruneModelRemovalReasons(originalReasons, stillMissing);
      if |stillMissing| == 0 {
        recheckAt, removedAt := 0, 0;
      } else {
        recheckAt := now + MissingRecheckInterval(cfg);
      }
      assert View() == RestoredRow(old(View()), restored, stillMissing, cfg, now);
      if |restored| > 0 && !abilitiesOk {
        var retryWatch := MergeModelNames(stillMissing, restored);
        watched := retryWatch;
        reasons := PruneModelRemovalReasons(originalReasons, retryWatch);
        recheckAt := retryNow + MissingRecheckInterval(cfg);
        return RetryNextRound(restored, stillMissing);
      }
      return Rechecked(restored, stillMissing);
    }

    /** The removal task: prechecks on a snapshot, the transaction, and what follows from its
        outcome. A model is taken away only on the strength of a non-empty upstream list, and for
        the missing reason only when that list does not have its target. */
    method RunModelMissingRemoval(snapshot: Option<Row>, fetch: Option<seq<string>>, mapping: Mapping,
                                  model: string, reason: Reason, cfg: Config, now: int, commitOk: bool,
                                  capDisablesChannel: bool, autoDisableOn: bool)
      returns (d: Disposition)
      modifies this
      ensures var upstreamName := if model in mapping then mapping[model] else model;
              var disabled := snapshot.Some? && !snapshot.value.enabled;
              var refused := || snapshot.None? || snapshot.value.removalDisabled
                             || fetch.None? || fetch.value == []
                             || (reason == Missing && upstreamName in fetch.value);
              var attempted := !disabled && !refused;
              var (next, outcome) := RemovalStep(old(View()), model, reason, cfg, now, commitOk);
              var escalates := outcome.CapReached? && capDisablesChannel && autoDisableOn;
              && View() == (if attempted then next else old(View()))
              && (d == Notify <==> attempted && (outcome.Removed? || outcome.AlreadyGone?))
              && (d == EscalateDisable <==> attempted && escalates)
              && (d == NoAction <==> disabled || (attempted && outcome.RemovalUnavailable?))
              && (d == FallbackDisable <==>
                    || (!disabled && refused)
                    || (attempted
                        && (outcome.LastModel? || outcome.RemovalFailed? || (outcome.CapReached? && !escalates))))
    {
      hide Normalize, Without, Fields, Join;
      var pre := Precheck(snapshot, fetch, mapping, model, reason);
      if pre.Some? {
        return pre.value;
      }
      var outcome := RemoveModel(model, reason, cfg, now, commitOk);
      match outcome {
        case RemovalUnavailable => d := NoAction;
        case AlreadyGone => d := Notify;
        case Removed(_, _) => d := Notify;
        case LastModel => d := FallbackDisable;
        case RemovalFailed => d := FallbackDisable;
        case CapReached(_) => d := if capDisablesChannel && autoDisableOn then EscalateDisable else FallbackDisable;
      }
    }
  }
}
