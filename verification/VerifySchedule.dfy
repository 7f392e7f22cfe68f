/** Periodic scoring of channels: a channel whose score falls is disabled and flagged, and a flagged
    channel whose score recovers is enabled again, with a limit on the channels disabled per round. */
module VerifySchedule {
  import opened Options
  import opened Text

  const ENABLED := 1
  const MANUALLY_DISABLED := 2
  const AUTO_DISABLED := 3

  const DEFAULT_INTERVAL := 360

  datatype Row = Row(status: int, verifyDisabled: int, below: Option<int>, above: Option<int>)

  /** How the writes of one action fare: whether the cached status lets it through, whether the row is
      saved, and whether the separate write of the flag succeeds. */
  datatype Writes = Writes(cacheAllows: bool, saved: bool, flagSaved: bool)

  const ALL_SUCCEED: Writes := Writes(true, true, true)

  /** Whether a status update is for the whole channel or for one of its keys; then whether the key is
      among the channel's, and whether any key is enabled afterwards. */
  datatype Scope = WholeChannel | OneKey(found: bool, anyEnabled: bool)

  /** The status that the channel gets from an update. */
  function StatusAfter(current: int, status: int, scope: Scope): int {
    match scope
    case WholeChannel => status
    case OneKey(found, anyEnabled) =>
      if !found then current
      else if !anyEnabled then AUTO_DISABLED
      else if status == ENABLED && current != MANUALLY_DISABLED then ENABLED
      else current
  }

  /** Updating a status: nothing happens if the row already has it; a channel that is enabled
      afterwards loses the flag. */
  function SetStatus(row: Row, status: int, scope: Scope, w: Writes): (Row, bool) {
    if !w.cacheAllows || row.status == status || !w.saved then
      (row, false)
    else
      var next := StatusAfter(row.status, status, scope);
      (row.(status := next, verifyDisabled := if next == ENABLED then 0 else row.verifyDisabled), true)
  }

  predicate Inverted(row: Row) {
    row.below.Some? && row.above.Some? && row.below.value > row.above.value
  }

  predicate Low(row: Row, score: int) {
    row.below.Some? && score < row.below.value
  }

  predicate High(row: Row, score: int) {
    row.above.Some? && score >= row.above.value
  }

  /** The status that a score asks for on a freshly read row. */
  function Wanted(row: Row, score: int, allowDisable: bool): Option<int> {
    if Inverted(row) then
      None
    else if Low(row, score) then
      if row.status == ENABLED && allowDisable then Some(AUTO_DISABLED) else None
    else if High(row, score) && row.status == AUTO_DISABLED && row.verifyDisabled == 1 then
      Some(ENABLED)
    else
      None
  }

  function WithFlag(row: Row, wanted: int, w: Writes): Row {
    if w.flagSaved then row.(verifyDisabled := if wanted == AUTO_DISABLED then 1 else 0) else row
  }

  /** The threshold action with nobody acting between its writes, and whether it disabled the channel. */
  function VerifyStep(row: Row, score: int, allowDisable: bool, w: Writes): (Row, bool) {
    match Wanted(row, score, allowDisable)
    case None => (row, false)
    case Some(status) =>
      var (next, changed) := SetStatus(row, status, WholeChannel, w);
      if changed then (WithFlag(next, status, w), status == AUTO_DISABLED) else (row, false)
  }

  // ----- what one action does -----

  /** A channel is disabled exactly if it is enabled, this is allowed, and the score is below the disabling
      threshold; it is enabled exactly if its own flag says that it was disabled this way and the score
      reaches the enabling threshold. Inverted thresholds do nothing, nor does a score between them. A status
      of 1 is enabled, and 3 is automatically disabled. */
  lemma VerifyActsExactly(row: Row, score: int, allowDisable: bool, w: Writes)
    ensures var (next, disabled) := VerifyStep(row, score, allowDisable, w);
            var writes := w.cacheAllows && w.saved;
            var inverted := row.below.Some? && row.above.Some? && row.below.value > row.above.value;
            var tooLow := row.below.Some? && score < row.below.value;
            var enables := && writes && row.status == 3 && row.verifyDisabled == 1
                           && row.above.Some? && score >= row.above.value && !tooLow && !inverted;
            && (disabled <==> writes && allowDisable && row.status == 1 && tooLow && !inverted)
            && (disabled ==>
                  next == row.(status := 3, verifyDisabled := if w.flagSaved then 1 else row.verifyDisabled))
            && (enables ==> next == row.(status := 1, verifyDisabled := 0))
            && (!disabled && !enables ==> next == row)
            && (!tooLow && (row.above.None? || score < row.above.value) ==> next == row)
  {
  }

  /** Once a score has been acted on, the same score changes nothing more, however the writes fare. */
  lemma RepeatedScoreIsQuiet(row: Row, score: int, allow: bool, allowAgain: bool, w: Writes, again: Writes)
    requires VerifyStep(row, score, allow, w).0 != row
    ensures VerifyStep(VerifyStep(row, score, allow, w).0, score, allowAgain, again)
         == (VerifyStep(row, score, allow, w).0, false)
  {
  }

  // ----- the actions of all parties on one channel -----

  /** A verify action; another party updating the status in the ordinary way; another party writing the
      status column alone (enabling or disabling by tag, editing the channel, recovering the health of a
      channel with several keys); an operator setting the thresholds. */
  datatype Event =
    | Verify(score: int, allowDisable: bool, writes: Writes)
    | Update(status: int, scope: Scope, writes: Writes)
    | WriteStatus(status: int)
    | SetThresholds(below: Option<int>, above: Option<int>)

  function Apply(row: Row, e: Event): Row {
    match e
    case Verify(score, allow, w) => VerifyStep(row, score, allow, w).0
    case Update(status, scope, w) => SetStatus(row, status, scope, w).0
    case WriteStatus(status) => row.(status := status)
    case SetThresholds(below, above) => row.(below := below, above := above)
  }

  /** The row after the first `k` events. */
  function RowAt(init: Row, events: seq<Event>, k: nat): Row
    requires k <= |events|
  {
    if k == 0 then init else Apply(RowAt(init, events, k - 1), events[k - 1])
  }

  predicate Moves(row: Row, e: Event) {
    Apply(row, e).status != row.status
  }

  /** Another party moves a flagged channel and the flag stays. */
  predicate KeepsFlag(row: Row, e: Event) {
    !e.Verify? && Moves(row, e) && row.verifyDisabled == 1 && Apply(row, e).verifyDisabled == 1
  }

  /** Before acting, another party can tell: the flag stays exactly if the channel is flagged and the
      status column is written alone, or the update does not leave the channel enabled. */
  lemma KeepsFlagExactly(row: Row, e: Event)
    requires !e.Verify? && Moves(row, e)
    ensures KeepsFlag(row, e) <==>
              row.verifyDisabled == 1 && (e.WriteStatus? || Apply(row, e).status != ENABLED)
  {
  }

  predicate MovesAt(init: Row, events: seq<Event>, k: nat)
    requires k < |events|
  {
    Moves(RowAt(init, events, k), events[k])
  }

  predicate KeepsFlagAt(init: Row, events: seq<Event>, k: nat)
    requires k < |events|
  {
    KeepsFlag(RowAt(init, events, k), events[k])
  }

  /** Event `j` is the last one before `k` that moves the channel. */
  ghost predicate LastMove(init: Row, events: seq<Event>, j: nat, k: nat)
    requires k <= |events|
  {
    j < k && MovesAt(init, events, j) && forall i: nat :: j < i < k ==> !MovesAt(init, events, i)
  }

  /** Nobody but a verify action brought the channel to its present status. */
  ghost predicate BroughtByVerify(init: Row, events: seq<Event>, k: nat)
    requires k <= |events|
  {
    exists j: nat :: LastMove(init, events, j, k) && events[j].Verify?
  }

  /** Event `k` is a verify action that enables the channel. */
  predicate RestoresAt(init: Row, events: seq<Event>, k: nat)
    requires k < |events|
  {
    events[k].Verify? && RowAt(init, events, k).status != ENABLED && RowAt(init, events, k + 1).status == ENABLED
  }

  /** Without a move the status stays and the flag is not set. */
  lemma {:induction false} BetweenMoves(init: Row, events: seq<Event>, j: nat, k: nat)
    requires j <= k <= |events| && forall i: nat :: j <= i < k ==> !MovesAt(init, events, i)
    ensures RowAt(init, events, k).status == RowAt(init, events, j).status
    ensures RowAt(init, events, k).verifyDisabled == 1 ==> RowAt(init, events, j).verifyDisabled == 1
  {
    if j < k {
      BetweenMoves(init, events, j, k - 1);
      assert !MovesAt(init, events, k - 1);
    }
  }

  /** A flag that the run did not start with was set by a move. */
  lemma {:induction false} FlaggedHasMoved(init: Row, events: seq<Event>, k: nat) returns (j: nat)
    requires init.verifyDisabled != 1 && k <= |events| && RowAt(init, events, k).verifyDisabled == 1
    ensures LastMove(init, events, j, k)
    ensures events[j].Verify? || KeepsFlagAt(init, events, j)
  {
    if MovesAt(init, events, k - 1) {
      j := k - 1;
    } else {
      BetweenMoves(init, events, k - 1, k);
      j := FlaggedHasMoved(init, events, k - 1);
    }
  }

  lemma OneLastMove(init: Row, events: seq<Event>, i: nat, j: nat, k: nat)
    requires k <= |events| && LastMove(init, events, i, k) && LastMove(init, events, j, k)
    ensures i == j
  {
  }

  /** A verify action enables a channel that another party brought to its present status if and only if
      that party moved the flagged channel and kept the flag. */
  lemma ForeignRestoreIff(init: Row, events: seq<Event>, k: nat)
    requires init.verifyDisabled != 1 && k < |events| && RestoresAt(init, events, k)
    ensures !BroughtByVerify(init, events, k)
       <==> exists j: nat :: LastMove(init, events, j, k) && KeepsFlagAt(init, events, j)
  {
    hide RowAt, MovesAt, KeepsFlagAt, LastMove;
    RestoreNeedsFlag(init, events, k);
    var j := FlaggedHasMoved(init, events, k);
    forall i: nat | LastMove(init, events, i, k)
      ensures i == j
    {
      OneLastMove(init, events, i, j, k);
    }
    KeptByOthers(init, events, k, j);
  }

  lemma KeptByOthers(init: Row, events: seq<Event>, k: nat, j: nat)
    requires k <= |events| && LastMove(init, events, j, k)
    ensures KeepsFlagAt(init, events, j) ==> !events[j].Verify?
  {
  }

  lemma RestoreNeedsFlag(init: Row, events: seq<Event>, k: nat)
    requires k < |events| && RestoresAt(init, events, k)
    ensures RowAt(init, events, k).verifyDisabled == 1 && RowAt(init, events, k).status == AUTO_DISABLED
  {
  }

  /** In every run in which no other party moves a flagged channel without clearing the flag, a verify
      action enables only what a verify action disabled. */
  lemma VerifyRestoresOnlyItsOwn(init: Row, events: seq<Event>, k: nat)
    requires init.verifyDisabled != 1 && k < |events| && RestoresAt(init, events, k)
    requires forall j: nat :: j < k ==> !KeepsFlagAt(init, events, j)
    ensures BroughtByVerify(init, events, k)
  {
    hide RowAt, MovesAt, KeepsFlagAt, RestoresAt;
    ForeignRestoreIff(init, events, k);
  }

  const HEALTH_DISABLE: Event := Update(AUTO_DISABLED, WholeChannel, ALL_SUCCEED)

  /** The condition is needed: whatever the run before, once another party has moved the channel and
      kept the flag, a health disabling and a good score lead to a foreign restore. */
  lemma KeptFlagLeadsToForeignRestore(init: Row, events: seq<Event>, score: int)
    requires init.verifyDisabled != 1 && events != [] && KeepsFlagAt(init, events, |events| - 1)
    ensures var run := events + [HEALTH_DISABLE, SetThresholds(None, Some(score)), Verify(score, true, ALL_SUCCEED)];
            RestoresAt(init, run, |events| + 2) && !BroughtByVerify(init, run, |events| + 2)
  {
    hide LastMove;
    var n := |events|;
    var more := [HEALTH_DISABLE, SetThresholds(None, Some(score)), Verify(score, true, ALL_SUCCEED)];
    var run := events + more;
    RowOfPrefix(init, events, more, n - 1);
    RowOfPrefix(init, events, more, n);
    assert run[n - 1] == events[n - 1] && run[n] == more[0] && run[n + 1] == more[1] && run[n + 2] == more[2];
    var last := if MovesAt(init, run, n) then n else n - 1;
    assert RowAt(init, run, n + 1) == Apply(RowAt(init, run, n), HEALTH_DISABLE);
    assert RowAt(init, run, n + 2) == Apply(RowAt(init, run, n + 1), more[1]);
    assert RowAt(init, run, n + 3) == Apply(RowAt(init, run, n + 2), more[2]);
    assert !MovesAt(init, run, n + 1);
    var k := n + 2;
    LastMoveIs(init, run, last, k);
    forall j: nat | LastMove(init, run, j, k)
      ensures j == last
    {
      OneLastMove(init, run, j, last, k);
    }
  }

  lemma LastMoveIs(init: Row, events: seq<Event>, j: nat, k: nat)
    requires k <= |events| && j < k && MovesAt(init, events, j)
    requires forall i: nat :: j < i < k ==> !MovesAt(init, events, i)
    ensures LastMove(init, events, j, k)
  {
  }

  lemma {:induction false} RowOfPrefix(init: Row, events: seq<Event>, more: seq<Event>, k: nat)
    requires k <= |events|
    ensures RowAt(init, events + more, k) == RowAt(init, events, k)
  {
    if k > 0 {
      RowOfPrefix(init, events, more, k - 1);
    }
  }

  /** Such runs start from ordinary channels: disabled by a score, then disabled by hand, or moved by a
      write of the status column alone, then disabled by the health check, then enabled by a score. */
  lemma ForeignRestoreIsReachable(init: Row, low: int, high: int, other: Event)
    requires init.status == ENABLED && init.verifyDisabled == 0
    requires Low(init, low) && High(init, high) && !Low(init, high) && !Inverted(init)
    requires other == Update(MANUALLY_DISABLED, WholeChannel, ALL_SUCCEED)
             || (other.WriteStatus? && other.status != AUTO_DISABLED)
    ensures var run := [Verify(low, true, ALL_SUCCEED), other, HEALTH_DISABLE, Verify(high, true, ALL_SUCCEED)];
            RestoresAt(init, run, 3) && !BroughtByVerify(init, run, 3)
  {
    var run := [Verify(low, true, ALL_SUCCEED), other, HEALTH_DISABLE, Verify(high, true, ALL_SUCCEED)];
    assert RowAt(init, run, 0) == init;
    assert RowAt(init, run, 1) == init.(status := AUTO_DISABLED, verifyDisabled := 1);
    assert RowAt(init, run, 2) == Apply(RowAt(init, run, 1), other);
    assert RowAt(init, run, 3) == init.(status := AUTO_DISABLED, verifyDisabled := 1);
    assert RowAt(init, run, 4) == init;
    assert LastMove(init, run, 2, 3);
    forall j: nat | LastMove(init, run, j, 3)
      ensures j == 2
    {
      OneLastMove(init, run, j, 2, 3);
    }
  }

  // ----- which status a flagged channel has -----

  /** Somebody sets the status of the whole channel to one that is neither enabled nor automatically
      disabled. */
  predicate ByHand(e: Event) {
    && (e.WriteStatus? || (e.Update? && e.scope.WholeChannel?))
    && e.status !in {ENABLED, AUTO_DISABLED}
  }

  /** Event `k` disables the channel by hand. */
  predicate HandDisablesAt(init: Row, events: seq<Event>, k: nat)
    requires k < |events|
  {
    MovesAt(init, events, k) && ByHand(events[k])
  }

  lemma MovedByHand(row: Row, e: Event)
    requires Moves(row, e) && Apply(row, e).status != ENABLED
    ensures ByHand(e) <==> Apply(row, e).status != AUTO_DISABLED
  {
  }

  /** No write of the status column alone enables a flagged channel. */
  ghost predicate NoBlindEnabling(init: Row, events: seq<Event>, k: nat)
    requires k <= |events|
  {
    forall j: nat :: j < k && events[j] == WriteStatus(ENABLED) ==> RowAt(init, events, j).verifyDisabled != 1
  }

  lemma {:induction false} FlaggedIsOutOfService(init: Row, events: seq<Event>, k: nat)
    requires init.verifyDisabled != 1 && k <= |events| && NoBlindEnabling(init, events, k)
    ensures RowAt(init, events, k).verifyDisabled == 1 ==> RowAt(init, events, k).status != ENABLED
  {
    if k > 0 {
      FlaggedIsOutOfService(init, events, k - 1);
    }
  }

  /** On runs without such a blind enabling a flagged channel is out of service, and it is automatically
      disabled if and only if no hand disabling is the last move of the channel. */
  lemma FlaggedIsAutoUnlessHandDisabled(init: Row, events: seq<Event>, k: nat)
    requires init.verifyDisabled != 1 && k <= |events| && NoBlindEnabling(init, events, k)
    requires RowAt(init, events, k).verifyDisabled == 1
    ensures RowAt(init, events, k).status != ENABLED
    ensures RowAt(init, events, k).status == AUTO_DISABLED
       <==> !exists j: nat :: LastMove(init, events, j, k) && HandDisablesAt(init, events, j)
  {
    hide RowAt, MovesAt;
    FlaggedIsOutOfService(init, events, k);
    var last := FlaggedHasMoved(init, events, k);
    BetweenMoves(init, events, last + 1, k);
    MovedAt(init, events, last);
    forall j: nat | LastMove(init, events, j, k)
      ensures j == last
    {
      OneLastMove(init, events, j, last, k);
    }
  }

  lemma MovedAt(init: Row, events: seq<Event>, k: nat)
    requires k < |events| && MovesAt(init, events, k) && RowAt(init, events, k + 1).status != ENABLED
    ensures HandDisablesAt(init, events, k) <==> RowAt(init, events, k + 1).status != AUTO_DISABLED
  {
    MovedByHand(RowAt(init, events, k), events[k]);
  }

  /** A flagged channel that is not automatically disabled is reached from every unflagged enabled one. */
  lemma FlaggedByHandIsReachable(init: Row, low: int)
    requires init.status == ENABLED && init.verifyDisabled == 0 && Low(init, low) && !Inverted(init)
    ensures var run := [Verify(low, true, ALL_SUCCEED), Update(MANUALLY_DISABLED, WholeChannel, ALL_SUCCEED)];
            NoBlindEnabling(init, run, 2)
            && RowAt(init, run, 2) == init.(status := MANUALLY_DISABLED, verifyDisabled := 1)
  {
    var run := [Verify(low, true, ALL_SUCCEED), Update(MANUALLY_DISABLED, WholeChannel, ALL_SUCCEED)];
    assert RowAt(init, run, 1) == init.(status := AUTO_DISABLED, verifyDisabled := 1);
    assert RowAt(init, run, 2) == Apply(RowAt(init, run, 1), run[1]);
  }

  // ----- acting between the two writes -----

  function ApplyAll(row: Row, events: seq<Event>): Row {
    if events == [] then row else Apply(ApplyAll(row, events[..|events| - 1]), events[|events| - 1])
  }

  ghost predicate OthersOnly(events: seq<Event>) {
    forall e :: e in events ==> !e.Verify?
  }

  /** What others do does not depend on the flag, except for the flag itself, which they never set. */
  lemma {:induction false} OthersIgnoreFlag(row: Row, flag: int, events: seq<Event>)
    requires OthersOnly(events)
    ensures ApplyAll(row.(verifyDisabled := flag), events)
         == ApplyAll(row, events).(verifyDisabled := ApplyAll(row.(verifyDisabled := flag), events).verifyDisabled)
    ensures ApplyAll(row.(verifyDisabled := flag), events).verifyDisabled in {flag, 0}
  {
    if events != [] {
      var init, last := events[..|events| - 1], events[|events| - 1];
      assert last in events;
      assert forall e :: e in init ==> e in events;
      OthersIgnoreFlag(row, flag, init);
    }
  }

  /** The event is an update that takes effect and leaves the channel enabled. */
  predicate Enables(row: Row, e: Event) {
    && e.Update?
    && SetStatus(row, e.status, e.scope, e.writes).1
    && StatusAfter(row.status, e.status, e.scope) == ENABLED
  }

  predicate EnablesAt(row: Row, events: seq<Event>, j: nat)
    requires j < |events|
  {
    Enables(ApplyAll(row, events[..j]), events[j])
  }

  lemma {:induction false} FlagStaysUnlessEnabled(row: Row, events: seq<Event>)
    requires OthersOnly(events)
    ensures ApplyAll(row.(verifyDisabled := 1), events).verifyDisabled == 1
       <==> forall j: nat :: j < |events| ==> !EnablesAt(row, events, j)
  {
    if events != [] {
      var n := |events| - 1;
      var init := events[..n];
      assert events[n] in events;
      assert forall e :: e in init ==> e in events;
      FlagStaysUnlessEnabled(row, init);
      OthersIgnoreFlag(row, 1, init);
      forall j: nat | j < n
        ensures EnablesAt(row, events, j) <==> EnablesAt(row, init, j)
      {
        assert events[..j] == init[..j];
      }
      assert EnablesAt(row, events, n) <==> Enables(ApplyAll(row, init), events[n]);
    }
  }

  /** The flag of a disabled channel is written after its status. What others do in between has the same
      result as doing it afterwards if and only if no update of theirs leaves the channel enabled. */
  lemma LateFlagIff(disabled: Row, between: seq<Event>)
    requires OthersOnly(between)
    ensures var late := ApplyAll(disabled, between).(verifyDisabled := 1);
            var after := ApplyAll(disabled.(verifyDisabled := 1), between);
            late == after <==> forall j: nat :: j < |between| ==> !EnablesAt(disabled, between, j)
  {
    OthersIgnoreFlag(disabled, 1, between);
    FlagStaysUnlessEnabled(disabled, between);
  }

  /** So an enabling in between leaves an enabled channel flagged, and a later health disabling of it is
      undone by the next good score. */
  lemma LateFlagOnEnabledChannel(disabled: Row, high: int)
    requires disabled.status == AUTO_DISABLED && High(disabled, high) && !Low(disabled, high) && !Inverted(disabled)
    ensures var late := ApplyAll(disabled, [Update(ENABLED, WholeChannel, ALL_SUCCEED)]).(verifyDisabled := 1);
            && late.status == ENABLED
            && ApplyAll(late, [HEALTH_DISABLE]).status == AUTO_DISABLED
            && ApplyAll(late, [HEALTH_DISABLE, Verify(high, true, ALL_SUCCEED)]).status == ENABLED
  {
    var enabling := [Update(ENABLED, WholeChannel, ALL_SUCCEED)];
    assert enabling[..0] == [];
    var late := ApplyAll(disabled, enabling).(verifyDisabled := 1);
    var verify := Verify(high, true, ALL_SUCCEED);
    assert [HEALTH_DISABLE][..0] == [] && [HEALTH_DISABLE, verify][..1] == [HEALTH_DISABLE];
    assert ApplyAll(late, [HEALTH_DISABLE]) == late.(status := AUTO_DISABLED);
  }

  // ----- one round -----

  datatype Report = Report(testedAt: int, model: string)

  /** What another party does to a channel while the round runs. */
  datatype Edit = Edit(id: int, event: Event)

  /** What others do between the reading of the row and the status update, and between the status
      update and the write of the flag. */
  datatype Gap = Gap(beforeStatus: seq<Edit>, beforeFlag: seq<Edit>)

  /** A channel of the round as it was listed, and what its test will bring: a score, or a failure. */
  datatype Listed = Listed(
    id: int, interval: Option<int>, report: Option<Report>, inScope: bool, targetValid: bool,
    score: Option<int>, writes: Writes, gap: Gap)

  function Interval(own: Option<int>, global: int): int {
    match own
    case Some(minutes) => minutes
    case None => if global <= 0 then DEFAULT_INTERVAL else global
  }

  /** The channel is tested in this round. */
  predicate Due(c: Listed, global: int, now: int) {
    var interval := Interval(c.interval, global);
    && interval > 0
    && c.report.Some? && now - c.report.value.testedAt >= interval * 60
    && TrimSpace(c.report.value.model) != ""
    && c.inScope && c.targetValid
  }

  /** A fifth of the channels, rounded down, but not less than five. */
  function MaxDisables(n: nat): (limit: nat)
    ensures limit >= 5 && limit * 5 + 4 >= n && (limit > 5 ==> limit * 5 <= n)
  {
    if n / 5 < 5 then 5 else n / 5
  }

  function Edited(rows: map<int, Row>, edits: seq<Edit>): (r: map<int, Row>)
    ensures r.Keys == rows.Keys
  {
    if edits == [] then
      rows
    else
      var before, e := Edited(rows, edits[..|edits| - 1]), edits[|edits| - 1];
      if e.id in before then before[e.id := Apply(before[e.id], e.event)] else before
  }

  datatype Round = Round(rows: map<int, Row>, disabled: nat)

  /** Everything a round depends on. */
  datatype Inputs = Inputs(listed: seq<Listed>, global: int, now: int, edits: seq<seq<Edit>>)

  predicate ValidInputs(inp: Inputs) {
    |inp.edits| == |inp.listed|
  }

  /** The threshold action on the stored rows, others acting in its gaps. */
  function VerifyRow(rows: map<int, Row>, id: int, score: int, allow: bool, w: Writes, gap: Gap)
      : (map<int, Row>, bool)
  {
    if id !in rows then
      (rows, false)
    else
      match Wanted(rows[id], score, allow)
      case None => (rows, false)
      case Some(status) =>
        var before := Edited(rows, gap.beforeStatus);
        var (next, changed) := SetStatus(before[id], status, WholeChannel, w);
        if !changed then
          (before, false)
        else
          var after := Edited(before[id := next], gap.beforeFlag);
          (after[id := WithFlag(after[id], status, w)], status == AUTO_DISABLED)
  }

  /** What others do to one channel. */
  function EventsFor(edits: seq<Edit>, id: int): seq<Event> {
    if edits == [] then
      []
    else
      var e := edits[|edits| - 1];
      EventsFor(edits[..|edits| - 1], id) + (if e.id == id then [e.event] else [])
  }

  lemma {:induction false} EditedOne(rows: map<int, Row>, edits: seq<Edit>, id: int)
    requires id in rows
    ensures Edited(rows, edits)[id] == ApplyAll(rows[id], EventsFor(edits, id))
  {
    if edits != [] {
      var n := |edits| - 1;
      EditedOne(rows, edits[..n], id);
      var events := EventsFor(edits[..n], id);
      assert (events + [edits[n].event])[..|events|] == events;
      assert events + [] == events;
    }
  }

  /** With others acting in its gaps, the action decides on the row that it reads, changes the status of the
      row that it then finds, unless that has the status already, and writes the flag last. */
  lemma DisturbedAction(rows: map<int, Row>, id: int, score: int, allow: bool, w: Writes, gap: Gap)
    requires id in rows
    ensures var (after, disabled) := VerifyRow(rows, id, score, allow, w, gap);
            var row := rows[id];
            var inverted := row.below.Some? && row.above.Some? && row.below.value > row.above.value;
            var tooLow := row.below.Some? && score < row.below.value;
            var disables := row.status == 1 && allow && tooLow && !inverted;
            var enables := && row.status == 3 && row.verifyDisabled == 1
                           && row.above.Some? && score >= row.above.value && !tooLow && !inverted;
            var found := ApplyAll(row, EventsFor(gap.beforeStatus, id));
            var since := EventsFor(gap.beforeFlag, id);
            var writes := w.cacheAllows && w.saved;
            if disables && writes && found.status != 3 then
              var late := ApplyAll(found.(status := 3), since);
              disabled && after[id] == (if w.flagSaved then late.(verifyDisabled := 1) else late)
            else if enables && writes && found.status != 1 then
              var late := ApplyAll(found.(status := 1, verifyDisabled := 0), since);
              !disabled && after[id] == (if w.flagSaved then late.(verifyDisabled := 0) else late)
            else
              !disabled && after[id] == if disables || enables then found else row
  {
    hide Edited, ApplyAll, EventsFor;
    EditedOne(rows, gap.beforeStatus, id);
    var mid := Edited(rows, gap.beforeStatus);
    var wanted := Wanted(rows[id], score, allow);
    if wanted.Some? {
      var (next, changed) := SetStatus(mid[id], wanted.value, WholeChannel, w);
      EditedOne(mid[id := next], gap.beforeFlag, id);
    }
  }

  /** With nobody acting in its gaps the action is the single step. */
  lemma UndisturbedActionIsStep(rows: map<int, Row>, id: int, score: int, allow: bool, w: Writes)
    requires id in rows
    ensures var (next, disabled) := VerifyStep(rows[id], score, allow, w);
            VerifyRow(rows, id, score, allow, w, Gap([], [])) == (rows[id := next], disabled)
  {
    var row := rows[id];
    assert rows[id := row] == rows;
    var (next, disabled) := VerifyStep(row, score, allow, w);
    if Wanted(row, score, allow).Some? {
      var (moved, changed) := SetStatus(row, Wanted(row, score, allow).value, WholeChannel, w);
      assert rows[id := moved][id := next] == rows[id := next];
    }
  }

  /** Visiting one listed channel. */
  function Visit(r: Round, c: Listed, global: int, now: int, limit: nat): Round {
    if !Due(c, global, now) || c.score.None? then
      r
    else
      var (rows, disabled) := VerifyRow(r.rows, c.id, c.score.value, r.disabled < limit, c.writes, c.gap);
      Round(rows, r.disabled + if disabled then 1 else 0)
  }

  /** The stored rows and the channels disabled so far, before visit `i` and the edits around it. */
  function RoundAt(rows: map<int, Row>, inp: Inputs, i: nat): Round
    requires ValidInputs(inp) && i <= |inp.listed|
  {
    if i == 0 then
      Round(rows, 0)
    else
      var r := RoundAt(rows, inp, i - 1);
      Visit(r.(rows := Edited(r.rows, inp.edits[i - 1])), inp.listed[i - 1], inp.global, inp.now,
            MaxDisables(|inp.listed|))
  }

  /** An update of the whole channel, or of one of its keys: it takes effect exactly if the cache lets it
      through, the status is a new one and the row is saved. A key never moves a channel that is disabled by
      hand, nor one it does not belong to, but may be the last one enabled. A channel that is enabled
      afterwards loses its flag. */
  lemma StatusUpdateExactly(row: Row, status: int, scope: Scope, w: Writes)
    ensures var (next, changed) := SetStatus(row, status, scope, w);
            && (changed <==> w.cacheAllows && w.saved && row.status != status)
            && (!changed ==> next == row)
            && (changed ==>
                  && next == row.(status := next.status, verifyDisabled := next.verifyDisabled)
                  && next.verifyDisabled == (if next.status == 1 then 0 else row.verifyDisabled)
                  && match scope
                     case WholeChannel => next.status == status
                     case OneKey(found, anyEnabled) =>
                       && (found && !anyEnabled ==> next.status == 3)
                       && (found && anyEnabled && status == 1 && row.status != 2 ==> next.status == 1)
                       && (!found || (anyEnabled && (status != 1 || row.status == 2)) ==> next.status == row.status))
  {
  }

  class ChannelTable {
    var rows: map<int, Row>

    constructor (rows: map<int, Row>)
      ensures this.rows == rows
    {
      this.rows := rows;
    }

    method UpdateChannelStatus(id: int, status: int, scope: Scope, w: Writes) returns (changed: bool)
      modifies this
      ensures id !in old(rows) ==> !changed && rows == old(rows)
      ensures id in old(rows) ==>
                && rows == old(rows)[id := SetStatus(old(rows)[id], status, scope, w).0]
                && changed == SetStatus(old(rows)[id], status, scope, w).1
    {
      if id !in rows || !w.cacheAllows {
        return false;
      }
      var row := rows[id];
      if row.status == status {
        return false;
      }
      match scope {
        case WholeChannel =>
          row := row.(status := status);
        case OneKey(found, anyEnabled) =>
          if found {
            if !anyEnabled {
              row := row.(status := AUTO_DISABLED);
            } else if status == ENABLED && row.status != MANUALLY_DISABLED {
              row := row.(status := ENABLED);
            }
          }
      }
      if row.status == ENABLED {
        row := row.(verifyDisabled := 0);
      }
      if !w.saved {
        return false;
      }
      rows := rows[id := row];
      return true;
    }

    method SetChannelVerifyDisabled(id: int, disabled: bool, w: Writes)
      modifies this
      ensures rows == if id in old(rows) && w.flagSaved
                      then old(rows)[id := old(rows)[id].(verifyDisabled := if disabled then 1 else 0)] else old(rows)
    {
      if id in rows && w.flagSaved {
        rows := rows[id := rows[id].(verifyDisabled := if disabled then 1 else 0)];
      }
    }

    method ApplyVerifyThresholdAction(id: int, newScore: int, allowDisable: bool, w: Writes, gap: Gap)
        returns (didDisable: bool)
      modifies this
      ensures (rows, didDisable) == VerifyRow(old(rows), id, newScore, allowDisable, w, gap)
    {
      hide Edited, SetStatus;
      if id !in rows {
        return false;
      }
      var row := rows[id];
      if row.below.Some? && row.above.Some? && row.below.value > row.above.value {
        return false;
      }
      if row.below.Some? && newScore < row.below.value {
        if row.status == ENABLED {
          if !allowDisable {
            return false;
          }
          ApplyEdits(gap.beforeStatus);
          NothingWritten(rows, id, AUTO_DISABLED, w);
          var changed := UpdateChannelStatus(id, AUTO_DISABLED, WholeChannel, w);
          if changed {
            ApplyEdits(gap.beforeFlag);
            SetChannelVerifyDisabled(id, true, w);
            FlagWritten(old(rows), rows, id, newScore, allowDisable, w, gap);
            return true;
          }
          return false;
        }
        return false;
      }
      if row.above.Some? && newScore >= row.above.value {
        if row.status == AUTO_DISABLED && row.verifyDisabled == 1 {
          ApplyEdits(gap.beforeStatus);
          NothingWritten(rows, id, ENABLED, w);
          var changed := UpdateChannelStatus(id, ENABLED, WholeChannel, w);
          if changed {
            ApplyEdits(gap.beforeFlag);
            SetChannelVerifyDisabled(id, false, w);
            FlagWritten(old(rows), rows, id, newScore, allowDisable, w, gap);
          }
        }
      }
      return false;
    }

    /** What others do to the table meanwhile. */
    method ApplyEdits(edits: seq<Edit>)
      modifies this
      ensures rows == Edited(old(rows), edits)
    {
      for i := 0 to |edits|
        invariant rows == Edited(old(rows), edits[..i])
      {
        assert edits[..i + 1][..i] == edits[..i];
        if edits[i].id in rows {
          rows := rows[edits[i].id := Apply(rows[edits[i].id], edits[i].event)];
        }
      }
      assert edits[..|edits|] == edits;
    }

    /** One round over the listed channels, others acting in between. */
    method RunVerifyScheduleOnce(inp: Inputs) returns (disabledThisRound: nat)
      requires ValidInputs(inp)
      modifies this
      ensures Round(rows, disabledThisRound) == RoundAt(old(rows), inp, |inp.listed|)
      ensures disabledThisRound <= MaxDisables(|inp.listed|)
    {
      hide Edited, RoundAt, VerifyRow, TrimSpace, MaxDisables, Interval;
      NothingVisited(rows, inp);
      var maxDisables := |inp.listed| / 5;
      if maxDisables < 5 {
        maxDisables := 5;
      }
      disabledThisRound := 0;
      assert maxDisables == MaxDisables(|inp.listed|) by { LimitIs(|inp.listed|); }
      for i := 0 to |inp.listed|
        invariant Round(rows, disabledThisRound) == RoundAt(old(rows), inp, i)
        invariant disabledThisRound <= maxDisables
      {
        RoundStep(old(rows), inp, i);
        ApplyEdits(inp.edits[i]);
        var c := inp.listed[i];
        var interval := Interval(c.interval, inp.global);
        if interval <= 0 || c.report.None? {
          continue;
        }
        var last := c.report.value;
        if inp.now - last.testedAt < interval * 60 {
          continue;
        }
        if TrimSpace(last.model) == "" || !c.inScope || !c.targetValid {
          continue;
        }
        if c.score.Some? {
          var allowDisable := disabledThisRound < maxDisables;
          DisablesOnlyIfAllowed(rows, c, allowDisable);
          var disabled := ApplyVerifyThresholdAction(c.id, c.score.value, allowDisable, c.writes, c.gap);
          if disabled {
            disabledThisRound := disabledThisRound + 1;
          }
        }
      }
    }
  }

  lemma NothingWritten(rows: map<int, Row>, id: int, status: int, w: Writes)
    requires id in rows
    ensures var (next, changed) := SetStatus(rows[id], status, WholeChannel, w);
            !changed ==> rows[id := next] == rows
  {
    assert rows[id := rows[id]] == rows;
  }

  lemma FlagWritten(before: map<int, Row>, after: map<int, Row>, id: int, score: int, allow: bool, w: Writes, gap: Gap)
    requires id in before && Wanted(before[id], score, allow).Some?
    requires var wanted := Wanted(before[id], score, allow).value;
             var mid := Edited(before, gap.beforeStatus);
             var (next, changed) := SetStatus(mid[id], wanted, WholeChannel, w);
             var late := Edited(mid[id := next], gap.beforeFlag);
             var flag := if wanted == AUTO_DISABLED then 1 else 0;
             changed && after == if w.flagSaved then late[id := late[id].(verifyDisabled := flag)] else late
    ensures after == VerifyRow(before, id, score, allow, w, gap).0
  {
    hide Edited, SetStatus, Wanted;
    var wanted := Wanted(before[id], score, allow).value;
    var mid := Edited(before, gap.beforeStatus);
    var late := Edited(mid[id := SetStatus(mid[id], wanted, WholeChannel, w).0], gap.beforeFlag);
    assert late[id := late[id]] == late;
  }

  lemma NothingVisited(rows: map<int, Row>, inp: Inputs)
    requires ValidInputs(inp)
    ensures RoundAt(rows, inp, 0) == Round(rows, 0)
  {
  }

  lemma LimitIs(n: nat)
    ensures MaxDisables(n) == if n / 5 < 5 then 5 else n / 5
  {
  }

  lemma DisablesOnlyIfAllowed(rows: map<int, Row>, c: Listed, allow: bool)
    requires c.score.Some?
    ensures VerifyRow(rows, c.id, c.score.value, allow, c.writes, c.gap).1 ==> allow
  {
    hide Edited, SetStatus;
  }

  /** The rows that visit `i` reads, after the edits before it. */
  function SeenAt(rows: map<int, Row>, inp: Inputs, i: nat): map<int, Row>
    requires ValidInputs(inp) && i < |inp.listed|
  {
    Edited(RoundAt(rows, inp, i).rows, inp.edits[i])
  }

  /** Visit `i` reads an enabled channel with a low score, the limit is not reached, and the status
      update that follows takes the channel out of whatever other status it then has. */
  ghost predicate DisablesAt(rows: map<int, Row>, inp: Inputs, i: nat)
    requires ValidInputs(inp) && i < |inp.listed|
  {
    var c, seen := inp.listed[i], SeenAt(rows, inp, i);
    && Due(c, inp.global, inp.now) && c.score.Some? && c.id in seen
    && seen[c.id].status == 1 && seen[c.id].below.Some? && c.score.value < seen[c.id].below.value
    && !(seen[c.id].above.Some? && seen[c.id].below.value > seen[c.id].above.value)
    && RoundAt(rows, inp, i).disabled < MaxDisables(|inp.listed|)
    && var current := Edited(seen, c.gap.beforeStatus)[c.id];
       current.status != 3 && c.writes.cacheAllows && c.writes.saved
  }

  /** The visits before `n` that take a channel out of service. */
  ghost function Disablings(rows: map<int, Row>, inp: Inputs, n: nat): set<nat>
    requires ValidInputs(inp) && n <= |inp.listed|
  {
    set i: nat | i < n && DisablesAt(rows, inp, i)
  }

  /** A visit tests its channel exactly if the own interval, or else the global one, or else six hours, is
      positive and has passed since the last report, that report names a model, and the channel can be
      tested. An undisturbed visit then does to that channel what a verify action with the score does,
      nothing otherwise, and nothing to any other channel. */
  lemma VisitActs(rows: map<int, Row>, inp: Inputs, i: nat, id: int)
    requires ValidInputs(inp) && i < |inp.listed| && inp.listed[i].gap == Gap([], [])
    ensures var before, after := SeenAt(rows, inp, i), RoundAt(rows, inp, i + 1).rows;
            var c := inp.listed[i];
            var minutes := if c.interval.Some? then c.interval.value else if inp.global > 0 then inp.global else 360;
            var tested := && minutes > 0 && c.report.Some? && inp.now >= c.report.value.testedAt + 60 * minutes
                          && TrimSpace(c.report.value.model) != "" && c.inScope && c.targetValid;
            && after.Keys == before.Keys
            && (id in before ==>
                  if id == c.id && tested && c.score.Some? then
                    after[id] == VerifyStep(before[id], c.score.value,
                                            RoundAt(rows, inp, i).disabled < MaxDisables(|inp.listed|), c.writes).0
                  else
                    after[id] == before[id])
  {
    hide VerifyStep, VerifyRow, Edited, RoundAt;
    RoundStep(rows, inp, i);
    var before := SeenAt(rows, inp, i);
    var c := inp.listed[i];
    if Due(c, inp.global, inp.now) && c.score.Some? {
      if c.id in before {
        UndisturbedActionIsStep(before, c.id, c.score.value,
                                RoundAt(rows, inp, i).disabled < MaxDisables(|inp.listed|), c.writes);
      } else {
        UnknownChannel(before, c, RoundAt(rows, inp, i).disabled < MaxDisables(|inp.listed|));
      }
    }
  }

  lemma UnknownChannel(rows: map<int, Row>, c: Listed, allow: bool)
    requires c.id !in rows && c.score.Some?
    ensures VerifyRow(rows, c.id, c.score.value, allow, c.writes, c.gap) == (rows, false)
  {
  }

  lemma RoundStep(rows: map<int, Row>, inp: Inputs, i: nat)
    requires ValidInputs(inp) && i < |inp.listed|
    ensures var r := RoundAt(rows, inp, i);
            RoundAt(rows, inp, i + 1)
            == Visit(r.(rows := SeenAt(rows, inp, i)), inp.listed[i], inp.global, inp.now, MaxDisables(|inp.listed|))
  {
    hide Visit, Edited;
  }

  /** The counter of a visit says exactly whether it takes its channel out of service. */
  lemma VisitCounts(rows: map<int, Row>, inp: Inputs, i: nat)
    requires ValidInputs(inp) && i < |inp.listed|
    ensures RoundAt(rows, inp, i + 1).disabled == RoundAt(rows, inp, i).disabled
         + (if DisablesAt(rows, inp, i) then 1 else 0)
    ensures DisablesAt(rows, inp, i) ==> RoundAt(rows, inp, i).disabled < MaxDisables(|inp.listed|)
  {
    hide Edited, RoundAt, Due;
    RoundStep(rows, inp, i);
  }

  /** A round takes at most max(5, n/5) channels out of service, whatever others do meanwhile, and its
      counter is exact. */
  lemma {:induction false} RoundDisablesAtMost(rows: map<int, Row>, inp: Inputs, n: nat)
    requires ValidInputs(inp) && n <= |inp.listed|
    ensures |Disablings(rows, inp, n)| == RoundAt(rows, inp, n).disabled <= MaxDisables(|inp.listed|)
  {
    hide DisablesAt, Visit, Edited, MaxDisables;
    if n == 0 {
      assert Disablings(rows, inp, 0) == {};
    } else {
      RoundDisablesAtMost(rows, inp, n - 1);
      VisitCounts(rows, inp, n - 1);
      DisablingsStep(rows, inp, n - 1);
    }
  }

  lemma DisablingsStep(rows: map<int, Row>, inp: Inputs, i: nat)
    requires ValidInputs(inp) && i < |inp.listed|
    ensures |Disablings(rows, inp, i + 1)|
         == |Disablings(rows, inp, i)| + (if DisablesAt(rows, inp, i) then 1 else 0)
  {
    hide DisablesAt;
    var before := Disablings(rows, inp, i);
    if DisablesAt(rows, inp, i) {
      assert Disablings(rows, inp, i + 1) == before + {i};
    } else {
      assert Disablings(rows, inp, i + 1) == before;
    }
  }
}
