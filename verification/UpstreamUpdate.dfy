/** Detecting how a channel's model list differs from its upstream, and applying the differences. */
module UpstreamUpdate {
  import opened Options
  import opened Text
  import opened ModelNames

  /** Whether a pattern matches a model name; a pattern that does not compile matches nothing. */
  type Matcher = (string, string) -> bool

  const REGEX_PREFIX: string := "regex:"

  predicate IsPattern(entry: string) {
    REGEX_PREFIX <= entry
  }

  predicate EntryIgnores(entry: string, model: string, matches: Matcher) {
    if IsPattern(entry) then matches(TrimSpace(entry[|REGEX_PREFIX|..]), model) else entry == model
  }

  predicate IsIgnored(ignored: seq<string>, model: string, matches: Matcher) {
    exists entry :: entry in ignored && EntryIgnores(entry, model, matches)
  }

  function Targets(mapping: Mapping): set<string> {
    set source | source in mapping :: mapping[source]
  }

  // ----- detection -----

  /** The upstream names that are not offered for addition. */
  function NotOffered(local: seq<string>, upstream: seq<string>, ignored: seq<string>, mapping: Mapping,
                      matches: Matcher): set<string>
  {
    set m | m in upstream && (m in local || m in Targets(mapping) || IsIgnored(ignored, m, matches))
  }

  function PendingAdd(local: seq<string>, upstream: seq<string>, ignored: seq<string>, mapping: Mapping,
                      matches: Matcher): seq<string>
  {
    var names := Normalize(upstream);
    Without(names, NotOffered(Normalize(local), names, Normalize(ignored), mapping, matches))
  }

  function PendingRemove(local: seq<string>, upstream: seq<string>, mapping: Mapping): seq<string> {
    Without(Normalize(local), mapping.Keys + Elements(Normalize(upstream)))
  }

  lemma PendingMembers(local: seq<string>, upstream: seq<string>, ignored: seq<string>, mapping: Mapping,
                       matches: Matcher)
    ensures IsNormal(PendingAdd(local, upstream, ignored, mapping, matches))
    ensures IsNormal(PendingRemove(local, upstream, mapping))
    ensures forall m :: m in PendingAdd(local, upstream, ignored, mapping, matches) <==>
              && m in Normalize(upstream)
              && m !in Normalize(local)
              && (forall source :: source in mapping ==> mapping[source] != m)
              && !IsIgnored(Normalize(ignored), m, matches)
    ensures forall m :: m in PendingRemove(local, upstream, mapping) <==>
              m in Normalize(local) && m !in mapping && m !in Normalize(upstream)
  {
    hide Normalize, Without, IsIgnored;
    forall m
      ensures m in Targets(mapping) <==> exists source :: source in mapping && mapping[source] == m
    {
    }
  }

  /** What detection offers: an upstream model that is not served, not a redirect target and not
      ignored, by its name or by a pattern, may be added; a served model that is neither a redirect source
      nor listed upstream may be removed. */
  lemma PendingExactly(local: seq<string>, upstream: seq<string>, ignored: seq<string>, mapping: Mapping,
                       matches: Matcher)
    ensures IsNormal(PendingAdd(local, upstream, ignored, mapping, matches))
    ensures IsNormal(PendingRemove(local, upstream, mapping))
    ensures forall m :: m in PendingAdd(local, upstream, ignored, mapping, matches) <==>
              && m in Normalize(upstream)
              && m !in Normalize(local)
              && (forall source :: source in mapping ==> mapping[source] != m)
              && (forall entry :: entry in Normalize(ignored) ==>
                    if "regex:" <= entry then !matches(TrimSpace(entry[6..]), m) else entry != m)
    ensures forall m :: m in PendingRemove(local, upstream, mapping) <==>
              m in Normalize(local) && m !in mapping && m !in Normalize(upstream)
  {
    hide Normalize, PendingAdd, PendingRemove;
    PendingMembers(local, upstream, ignored, mapping, matches);
  }

  // ----- the stored state -----

  /** The columns that detection and application read and write. */
  datatype Channel = Channel(
    models: string,
    detected: seq<string>,
    removed: seq<string>,
    ignored: seq<string>,
    lastCheck: int,
    autoSync: bool)

  datatype CheckResult =
    | TooEarly
    | Cancelled
    | FetchFailed
    | StoreFailed
    | AbilitiesFailed(autoAdded: nat)
    | Checked(modelsChanged: bool, autoAdded: nat)

  /** Detection against an upstream list, with automatic addition when it is enabled. */
  function Detect(c: Channel, upstream: seq<string>, mapping: Mapping, matches: Matcher, now: int, allowAuto: bool)
    : Channel
  {
    var adds := PendingAdd(ColumnNames(c.models), upstream, c.ignored, mapping, matches);
    var removes := PendingRemove(ColumnNames(c.models), upstream, mapping);
    if allowAuto && c.autoSync && adds != [] then
      c.(models := ExtendedColumn(c.models, adds), detected := [], removed := removes, lastCheck := now)
    else
      c.(detected := adds, removed := removes, lastCheck := now)
  }

  datatype Selection = Selection(add: seq<string>, ignore: seq<string>, remove: seq<string>)

  /** The part of a request that was pending; addition wins over removal. */
  function Chosen(c: Channel, req: Selection): Selection {
    var adds := Intersect(req.add, Normalize(c.detected));
    Selection(adds,
              Intersect(req.ignore, Normalize(c.detected)),
              Subtract(Intersect(req.remove, Normalize(c.removed)), adds))
  }

  function SelectedChanges(origin: seq<string>, add: seq<string>, remove: seq<string>): seq<string> {
    var normalizedAdd := Normalize(add);
    Subtract(Merge(origin, normalizedAdd), Subtract(Normalize(remove), normalizedAdd))
  }

  function NextIgnored(ignored: seq<string>, chosen: Selection): seq<string> {
    var grown := Merge(ignored, chosen.ignore);
    if chosen.add == [] then grown else Subtract(grown, chosen.add)
  }

  function Apply(c: Channel, req: Selection, now: int): Channel {
    var chosen := Chosen(c, req);
    var next := SelectedChanges(ColumnNames(c.models), chosen.add, chosen.remove);
    c.(models := if next == ColumnNames(c.models) then c.models else Join(next, COMMA),
       ignored := NextIgnored(c.ignored, chosen),
       detected := Subtract(Normalize(c.detected), chosen.add + chosen.ignore),
       removed := Subtract(Normalize(c.removed), chosen.remove),
       lastCheck := now)
  }

  lemma MergeAppends(names: seq<string>, added: seq<string>)
    requires IsNormal(names) && IsNormal(added)
    requires forall m :: m in added ==> m !in names
    ensures Merge(names, added) == names + added
    ensures IsNormal(names + added)
  {
    hide Normalize, Without;
    NormalizeFixed(names);
    NormalizeFixed(added);
    WithoutNone(added, Elements(names));
    MergeElements(names, added);
  }

  // ----- the code -----

  class ChannelStore {
    var models: string
    var detected: seq<string>
    var removed: seq<string>
    var ignored: seq<string>
    var lastCheck: int
    var autoSync: bool

    constructor (c: Channel)
      ensures View() == c
    {
      models, detected, removed, ignored := c.models, c.detected, c.removed, c.ignored;
      lastCheck, autoSync := c.lastCheck, c.autoSync;
    }

    function View(): Channel
      reads this
    {
      Channel(models, detected, removed, ignored, lastCheck, autoSync)
    }

    /** One check of a channel. A check that is not forced is skipped within `minInterval` of the last
        one; a failed fetch only records the time, and nothing if it failed because the check was
        cancelled; a failed abilities rebuild is reported but leaves what was stored. */
    method CheckAndPersist(upstream: Option<seq<string>>, mapping: Mapping, matches: Matcher, now: int,
                           force: bool, minInterval: int, allowAuto: bool, cancelled: bool,
                           storeOk: bool, abilitiesOk: bool)
      returns (r: CheckResult)
      modifies this
      ensures r == TooEarly <==> !force && old(lastCheck) > 0 && now - old(lastCheck) < minInterval
      ensures r == Cancelled <==> r != TooEarly && upstream.None? && cancelled
      ensures r == StoreFailed <==> r !in {TooEarly, Cancelled} && !storeOk
      ensures r == FetchFailed <==> r !in {TooEarly, Cancelled, StoreFailed} && upstream.None?
      ensures r in {TooEarly, Cancelled, StoreFailed} ==> View() == old(View())
      ensures r == FetchFailed ==> View() == old(View()).(lastCheck := now)
      ensures r.Checked? || r.AbilitiesFailed? ==>
                && upstream.Some?
                && View() == Detect(old(View()), upstream.value, mapping, matches, now, allowAuto)
                && lastCheck == now && ignored == old(ignored) && autoSync == old(autoSync)
                && IsNormal(removed) && IsNormal(detected)
                && (forall m :: m in removed <==>
                      && m in ColumnNames(old(models)) && m !in mapping && m !in Normalize(upstream.value))
                && (allowAuto && autoSync ==> detected == [])
                && (!(allowAuto && autoSync) ==> models == old(models) && forall m :: m in detected <==>
                      && m in Normalize(upstream.value) && m !in ColumnNames(models)
                      && (forall source :: source in mapping ==> mapping[source] != m)
                      && !IsIgnored(Normalize(ignored), m, matches))
                && (r.AbilitiesFailed? <==> r.autoAdded > 0 && !abilitiesOk)
                && (r.Checked? ==> (r.modelsChanged <==> r.autoAdded > 0))
                && (var adds := PendingAdd(ColumnNames(old(View()).models), upstream.value, old(ignored), mapping,
                                               matches);
                    r.autoAdded == if allowAuto && autoSync then |adds| else 0)
    {
      hide Normalize, Without, Fields, Join, IsIgnored, PendingAdd, PendingRemove, ColumnNames;
      if !force && lastCheck > 0 && now - lastCheck < minInterval {
        return TooEarly;
      }
      if upstream.None? && cancelled {
        return Cancelled;
      }
      if !storeOk {
        return StoreFailed;
      }
      if upstream.None? {
        lastCheck := now;
        return FetchFailed;
      }
      var originModels := ColumnNames(models);
      var pendingAdd := PendingAdd(originModels, upstream.value, ignored, mapping, matches);
      var pendingRemove := PendingRemove(originModels, upstream.value, mapping);
      var modelsChanged, autoAdded := false, 0;
      PendingMembers(originModels, upstream.value, ignored, mapping, matches);
      NormalizeFixed(originModels);
      if allowAuto && autoSync && |pendingAdd| > 0 {
        MergeAppends(originModels, pendingAdd);
        var mergedModels := MergeModelNames(originModels, pendingAdd);
        if |mergedModels| > |originModels| {
          models := Join(mergedModels, COMMA);
          autoAdded := |mergedModels| - |originModels|;
          modelsChanged := true;
        }
        detected := [];
      } else {
        detected := pendingAdd;
      }
      removed, lastCheck := pendingRemove, now;
      if modelsChanged && !abilitiesOk {
        return AbilitiesFailed(autoAdded);
      }
      return Checked(modelsChanged, autoAdded);
    }

    /** Applies the chosen part of what was last detected. */
    method ApplyUpdates(req: Selection, now: int)
      returns (added: seq<string>, removedModels: seq<string>, modelsChanged: bool)
      modifies this
      ensures View() == Apply(old(View()), req, now)
      ensures lastCheck == now && autoSync == old(autoSync)
      ensures added == Chosen(old(View()), req).add && removedModels == Chosen(old(View()), req).remove
      ensures modelsChanged <==>
                SelectedChanges(ColumnNames(old(View()).models), added, removedModels)
                  != ColumnNames(old(View()).models)
    {
      hide Normalize, Without, Within, Fields, Join;
      var pendingAdd, pendingRemove := Normalize(detected), Normalize(removed);
      added := Intersect(req.add, pendingAdd);
      var ignoreModels := Intersect(req.ignore, pendingAdd);
      removedModels := Intersect(req.remove, pendingRemove);
      removedModels := Subtract(removedModels, added);
      var originModels := ColumnNames(models);
      var nextModels := SelectedChanges(originModels, added, removedModels);
      modelsChanged := originModels != nextModels;
      if modelsChanged {
        models := Join(nextModels, COMMA);
      }
      var grown := MergeModelNames(ignored, ignoreModels);
      ignored := grown;
      if |added| > 0 {
        ignored := Subtract(ignored, added);
      }
      detected := Subtract(pendingAdd, added + ignoreModels);
      removed := Subtract(pendingRemove, removedModels);
      lastCheck := now;
    }
  }

  // ----- the detect and apply cycle -----

  lemma AppendSepFree(a: seq<string>, b: seq<string>)
    requires SepFree(a, COMMA)
    ensures SepFree(a + b, COMMA) <==> SepFree(b, COMMA)
  {
    forall m | m in b
      ensures m in a + b
    {
    }
    forall m | m in a + b
      ensures m in a || m in b
    {
    }
  }

  /** A pending model whose name contains a comma can never be stored, so it stays pending whatever
      the list becomes. */
  lemma CommaNameStaysPending(local: seq<string>, upstream: seq<string>, ignored: seq<string>,
                              ignored': seq<string>, mapping: Mapping, matches: Matcher, column: string)
    requires !SepFree(PendingAdd(local, upstream, ignored, mapping, matches), COMMA)
    requires forall entry :: entry in Normalize(ignored') ==> entry in Normalize(ignored)
    ensures PendingAdd(ColumnNames(column), upstream, ignored', mapping, matches) != []
  {
    hide Normalize, Without, Fields;
    PendingMembers(local, upstream, ignored, mapping, matches);
    PendingMembers(ColumnNames(column), upstream, ignored', mapping, matches);
    NormalizeFixed(ColumnNames(column));
    var m :| m in PendingAdd(local, upstream, ignored, mapping, matches) && COMMA in m;
    assert m !in ColumnNames(column);
    assert m in PendingAdd(ColumnNames(column), upstream, ignored', mapping, matches);
  }

  /** Automatic addition leaves nothing pending for addition exactly when every pending name can be
      stored in the column; then it appends exactly the pending models and changes no pending
      removal. */
  lemma AutoSyncReachesFixpoint(c: Channel, upstream: seq<string>, mapping: Mapping, matches: Matcher, now: int)
    requires c.autoSync
    ensures var adds := PendingAdd(ColumnNames(c.models), upstream, c.ignored, mapping, matches);
            var next := Detect(c, upstream, mapping, matches, now, true);
            && (PendingAdd(ColumnNames(next.models), upstream, next.ignored, mapping, matches) == []
                <==> SepFree(adds, COMMA))
            && (SepFree(adds, COMMA) ==>
                  && ColumnNames(next.models) == ColumnNames(c.models) + adds
                  && PendingRemove(ColumnNames(next.models), upstream, mapping)
                       == PendingRemove(ColumnNames(c.models), upstream, mapping))
  {
    hide Normalize, Fields, Join, Without, IsIgnored;
    var adds := PendingAdd(ColumnNames(c.models), upstream, c.ignored, mapping, matches);
    var next := Detect(c, upstream, mapping, matches, now, true);
    PendingMembers(ColumnNames(c.models), upstream, c.ignored, mapping, matches);
    PendingMembers(ColumnNames(next.models), upstream, next.ignored, mapping, matches);
    NormalizeFixed(ColumnNames(c.models));
    NormalizeFixed(ColumnNames(next.models));
    MergeAppends(ColumnNames(c.models), adds);
    if !SepFree(adds, COMMA) {
      CommaNameStaysPending(ColumnNames(c.models), upstream, c.ignored, c.ignored, mapping, matches, next.models);
    } else {
      AppendSepFree(ColumnNames(c.models), adds);
      ColumnRoundTrip(ColumnNames(c.models) + adds);
      NothingAppended(ColumnNames(c.models), adds);
      AppendKeepsRemovals(ColumnNames(c.models), adds, mapping.Keys + Elements(Normalize(upstream)));
      EmptyWhenNoMember(PendingAdd(ColumnNames(next.models), upstream, next.ignored, mapping, matches));
    }
  }

  lemma NothingAppended(names: seq<string>, added: seq<string>)
    ensures added == [] ==> names + added == names
  {
  }

  lemma EmptyWhenNoMember(xs: seq<string>)
    ensures xs == [] <==> forall x :: x !in xs
  {
    if xs != [] {
      assert xs[0] in xs;
    }
  }

  lemma AppendKeepsRemovals(names: seq<string>, added: seq<string>, kept: set<string>)
    requires forall m :: m in added ==> m in kept
    ensures Without(names + added, kept) == Without(names, kept)
  {
    WithoutSplit(names, added, kept);
    WithoutAll(added, kept);
  }

  /** The request that takes everything that is pending. */
  function TakeAll(c: Channel): Selection {
    Selection(Normalize(c.detected), [], Normalize(c.removed))
  }

  lemma ChosenOfTakeAll(c: Channel)
    requires IsNormal(c.detected) && IsNormal(c.removed)
    requires forall m :: m in c.detected ==> m !in c.removed
    ensures Chosen(c, TakeAll(c)) == Selection(c.detected, [], c.removed)
  {
    hide Normalize;
    var adds, removes := c.detected, c.removed;
    NormalizeFixed(adds);
    NormalizeFixed(removes);
    WithinAll(adds, Elements(adds));
    WithinAll(removes, Elements(removes));
    WithoutNone(removes, Elements(adds));
    NormalizeFixed([]);
    WithinNone([], Elements(adds));
  }

  lemma SelectedChangesDisjoint(names: seq<string>, adds: seq<string>, removes: seq<string>)
    requires IsNormal(names) && IsNormal(adds) && IsNormal(removes)
    requires forall m :: m in adds ==> m !in names && m !in removes
    ensures SelectedChanges(names, adds, removes) == Without(names + adds, Elements(removes))
  {
    hide Normalize;
    NormalizeFixed(adds);
    NormalizeFixed(removes);
    MergeAppends(names, adds);
    NormalizeFixed(names + adds);
    WithoutNone(removes, Elements(adds));
  }

  lemma NextIgnoredOfTakeAll(ignored: seq<string>, adds: seq<string>)
    requires IsNormal(adds)
    ensures var next := NextIgnored(ignored, Selection(adds, [], []));
            IsNormal(next) && Elements(next) == Elements(Normalize(ignored)) - Elements(adds)
  {
    hide Normalize, Without;
    NormalizeFixed([]);
    NormalizeFixed(adds);
    MergeElements(ignored, []);
    NormalizeFixed(Merge(ignored, []));
    if adds == [] {
      assert Elements(adds) == {};
    }
  }

  /** Detecting, applying everything that is pending and detecting again against the same upstream
      list finds nothing either way, exactly when every pending name can be stored in the column
      and the ignore entries that the application removes are not needed. */
  lemma DetectApplyReachesFixpoint(c: Channel, upstream: seq<string>, mapping: Mapping, matches: Matcher,
                                   now: int, later: int)
    ensures var first := Detect(c, upstream, mapping, matches, now, false);
            var applied := Apply(first, TakeAll(first), later);
            var adds := first.detected;
            && (PendingAdd(ColumnNames(applied.models), upstream, applied.ignored, mapping, matches) == []
                && PendingRemove(ColumnNames(applied.models), upstream, mapping) == []
                <==> SepFree(adds, COMMA) && StillIgnored(c, upstream, mapping, matches, adds))
            && applied.detected == [] && applied.removed == []
  {
    hide Normalize, Fields, Join, Without, Within, IsIgnored, Merge, Subtract;
    var first := Detect(c, upstream, mapping, matches, now, false);
    var applied := Apply(first, TakeAll(first), later);
    var adds, removes := first.detected, first.removed;
    PendingMembers(ColumnNames(c.models), upstream, c.ignored, mapping, matches);
    NormalizeFixed(ColumnNames(c.models));
    ChosenOfTakeAll(first);
    SelectedChangesDisjoint(ColumnNames(c.models), adds, removes);
    NextIgnoredOfTakeAll(c.ignored, adds);
    LeftOver(adds);
    LeftOver(removes);
    AfterApplication(c, upstream, mapping, matches, adds, removes, applied);
  }

  lemma LeftOver(names: seq<string>)
    requires IsNormal(names)
    ensures Subtract(Normalize(names), names + []) == []
    ensures Subtract(Normalize(names), names) == []
  {
    hide Normalize;
    NormalizeFixed(names);
    assert names + [] == names;
    WithoutAll(names, Elements(names));
  }

  /** Every upstream model that is neither served nor a redirect target nor added is ignored by an
      entry that is not itself the name of an added model. */
  ghost predicate StillIgnored(c: Channel, upstream: seq<string>, mapping: Mapping, matches: Matcher, adds: seq<string>)
  {
    forall m :: m in Normalize(upstream) && m !in ColumnNames(c.models) && m !in Targets(mapping) && m !in adds ==>
      exists entry :: entry in Normalize(c.ignored) && entry !in adds && EntryIgnores(entry, m, matches)
  }

  lemma AfterApplication(c: Channel, upstream: seq<string>, mapping: Mapping, matches: Matcher,
                         adds: seq<string>, removes: seq<string>, applied: Channel)
    requires adds == PendingAdd(ColumnNames(c.models), upstream, c.ignored, mapping, matches)
    requires removes == PendingRemove(ColumnNames(c.models), upstream, mapping)
    requires var next := Without(ColumnNames(c.models) + adds, Elements(removes));
             applied.models == if next == ColumnNames(c.models) then c.models else Join(next, COMMA)
    requires IsNormal(applied.ignored) && Elements(applied.ignored) == Elements(Normalize(c.ignored)) - Elements(adds)
    ensures PendingAdd(ColumnNames(applied.models), upstream, applied.ignored, mapping, matches) == []
            && PendingRemove(ColumnNames(applied.models), upstream, mapping) == []
            <==> SepFree(adds, COMMA) && StillIgnored(c, upstream, mapping, matches, adds)
  {
    hide Normalize, Fields, Join, Without, PendingAdd, PendingRemove;
    PendingMembers(ColumnNames(c.models), upstream, c.ignored, mapping, matches);
    PendingMembers(ColumnNames(applied.models), upstream, applied.ignored, mapping, matches);
    NormalizeFixed(ColumnNames(c.models));
    NormalizeFixed(ColumnNames(applied.models));
    NormalizeFixed(applied.ignored);
    assert forall entry :: entry in applied.ignored <==> entry in Elements(applied.ignored);
    assert forall entry :: entry in applied.ignored <==> entry in Normalize(c.ignored) && entry !in adds;
    if !SepFree(adds, COMMA) {
      CommaNameStaysPending(ColumnNames(c.models), upstream, c.ignored, applied.ignored, mapping,
                            matches, applied.models);
    } else {
      var next := Without(ColumnNames(c.models) + adds, Elements(removes));
      NextNames(ColumnNames(c.models), adds, removes);
      ColumnRoundTrip(next);
      assert ColumnNames(applied.models) == next;
      EmptyWhenNoMember(PendingAdd(ColumnNames(applied.models), upstream, applied.ignored, mapping, matches));
      EmptyWhenNoMember(PendingRemove(ColumnNames(applied.models), upstream, mapping));
    }
  }

  lemma NextNames(names: seq<string>, adds: seq<string>, removes: seq<string>)
    requires IsNormal(names) && IsNormal(adds) && SepFree(names, COMMA) && SepFree(adds, COMMA)
    requires forall m :: m in adds ==> m !in names
    ensures var next := Without(names + adds, Elements(removes));
            && IsNormal(next) && SepFree(next, COMMA)
            && (forall m :: m in next <==> (m in names || m in adds) && m !in removes)
  {
    hide Normalize, Without;
    MergeAppends(names, adds);
    AppendSepFree(names, adds);
  }

  /** With storable names and no upstream name that looks like a pattern, the cycle always reaches
      its fixpoint. */
  lemma OrdinaryNamesReachFixpoint(c: Channel, upstream: seq<string>, mapping: Mapping, matches: Matcher,
                                   now: int, later: int)
    requires forall m :: m in Normalize(upstream) ==> COMMA !in m && !IsPattern(m)
    ensures var first := Detect(c, upstream, mapping, matches, now, false);
            var applied := Apply(first, TakeAll(first), later);
            && PendingAdd(ColumnNames(applied.models), upstream, applied.ignored, mapping, matches) == []
            && PendingRemove(ColumnNames(applied.models), upstream, mapping) == []
  {
    hide Normalize, Fields, Join, Without, Within, Merge, Subtract;
    var adds := PendingAdd(ColumnNames(c.models), upstream, c.ignored, mapping, matches);
    PendingMembers(ColumnNames(c.models), upstream, c.ignored, mapping, matches);
    NormalizeFixed(ColumnNames(c.models));
    DetectApplyReachesFixpoint(c, upstream, mapping, matches, now, later);
    forall m | m in Normalize(upstream) && m !in ColumnNames(c.models) && m !in Targets(mapping) && m !in adds
      ensures exists entry :: entry in Normalize(c.ignored) && entry !in adds && EntryIgnores(entry, m, matches)
    {
      assert IsIgnored(Normalize(c.ignored), m, matches);
      var entry :| entry in Normalize(c.ignored) && EntryIgnores(entry, m, matches);
      if entry in adds {
        assert false;
      }
    }
  }

  predicate MatchesOnlyB(pattern: string, model: string) {
    pattern == "a" && model == "b"
  }

  /** An upstream model named like a pattern: adding it removes the equal ignore entry, and what the
      entry ignored is pending afterwards. */
  lemma PatternNameBreaksFixpoint()
    ensures var c := Channel("", [], [], ["regex:a"], 0, false);
            var first := Detect(c, ["regex:a", "b"], map[], MatchesOnlyB, 1, false);
            var applied := Apply(first, TakeAll(first), 2);
            first.detected == ["regex:a"]
            && (PendingAdd(ColumnNames(applied.models), ["regex:a", "b"], applied.ignored, map[], MatchesOnlyB) != []
                || PendingRemove(ColumnNames(applied.models), ["regex:a", "b"], map[]) != [])
  {
    hide Normalize, Fields, Join, Without, Within, Merge, Subtract, PendingAdd, PendingRemove;
    var c := Channel("", [], [], ["regex:a"], 0, false);
    var upstream := ["regex:a", "b"];
    ConcreteNames();
    var adds := PendingAdd(ColumnNames(c.models), upstream, c.ignored, map[], MatchesOnlyB);
    PendingMembers(ColumnNames(c.models), upstream, c.ignored, map[], MatchesOnlyB);
    NormalizeFixed([]);
    assert "regex:a"[6..] == "a";
    assert c.ignored[0] == "regex:a" && upstream[0] == "regex:a" && upstream[1] == "b";
    assert IsIgnored(c.ignored, "b", MatchesOnlyB) && !IsIgnored(c.ignored, "regex:a", MatchesOnlyB);
    assert "regex:a" in adds && forall m :: m in adds ==> m == "regex:a";
    OnlyMember(adds, "regex:a");
    assert !StillIgnored(c, upstream, map[], MatchesOnlyB, adds) by {
      assert "b" in Normalize(upstream) && "b" !in ColumnNames(c.models) && "b" !in adds;
    }
    DetectApplyReachesFixpoint(c, upstream, map[], MatchesOnlyB, 1, 2);
  }

  lemma OnlyMember(xs: seq<string>, x: string)
    requires NoDuplicates(xs) && x in xs && forall y :: y in xs ==> y == x
    ensures xs == [x]
  {
    assert Elements(xs) == {x};
    CardinalityOfElements(xs);
    assert xs[0] in xs;
  }

  lemma ConcreteNames()
    ensures Normalize(["regex:a", "b"]) == ["regex:a", "b"]
    ensures Normalize(["regex:a"]) == ["regex:a"]
    ensures TrimSpace("a") == "a"
    ensures ColumnNames("") == []
  {
    assert IsName("regex:a") && IsName("b") && IsName("a");
    NormalizeFixed(["regex:a", "b"]);
    NormalizeFixed(["regex:a"]);
  }

  lemma RemovedParts(c: Channel, req: Selection)
    ensures var chosen := Chosen(c, req);
            && Elements(chosen.remove)
               == Elements(Normalize(req.remove)) * Elements(Normalize(c.removed)) - Elements(chosen.add)
            && Elements(Subtract(Normalize(c.removed), chosen.remove))
               == Elements(Normalize(c.removed)) - Elements(chosen.remove)
  {
    hide Normalize, Without, Within;
    var chosen := Chosen(c, req);
    var pending := Normalize(c.removed);
    var removes := Intersect(req.remove, pending);
    NormalizeFixed(pending);
    IntersectElements(req.remove, pending);
    NormalizeFixed(removes);
    IntersectElements(req.add, Normalize(c.detected));
    NormalizeFixed(chosen.add);
    SubtractElements(removes, chosen.add);
    NormalizeFixed(chosen.remove);
    SubtractElements(pending, chosen.remove);
  }

  /** A manual application splits the pending additions into added, ignored and remaining models,
      each in exactly one part; adding wins over ignoring, and the ignore list afterwards holds the
      newly ignored models and none of the added ones. The chosen removals are those pending that are not
      added, and the other pending removals remain. */
  lemma ApplicationSplitsPending(c: Channel, req: Selection, now: int)
    ensures var chosen, next := Chosen(c, req), Apply(c, req, now);
            var added := Elements(chosen.add);
            var newlyIgnored := Elements(chosen.ignore) - added;
            var remaining := Elements(next.detected);
            && added !! newlyIgnored && added !! remaining && newlyIgnored !! remaining
            && added + newlyIgnored + remaining == Elements(Normalize(c.detected))
            && added == Elements(Normalize(req.add)) * Elements(Normalize(c.detected))
            && Elements(chosen.ignore) == Elements(Normalize(req.ignore)) * Elements(Normalize(c.detected))
            && Elements(next.ignored) == Elements(Normalize(c.ignored)) + Elements(chosen.ignore) - added
            && Elements(chosen.remove)
               == Elements(Normalize(req.remove)) * Elements(Normalize(c.removed)) - added
            && Elements(next.removed) == Elements(Normalize(c.removed)) - Elements(chosen.remove)
            && next.lastCheck == now && next.autoSync == c.autoSync
  {
    hide Normalize, Without, Within;
    var chosen := Chosen(c, req);
    var pending := Normalize(c.detected);
    NormalizeFixed(pending);
    IntersectElements(req.add, pending);
    IntersectElements(req.ignore, pending);
    RemovedParts(c, req);
    NormalizeFixed(chosen.add);
    NormalizeFixed(chosen.ignore);
    AppendedElements(chosen.add, chosen.ignore);
    SubtractElements(pending, chosen.add + chosen.ignore);
    MergeElements(c.ignored, chosen.ignore);
    var grown := Merge(c.ignored, chosen.ignore);
    NormalizeFixed(grown);
    if chosen.add == [] {
      assert Elements(chosen.add) == {};
    }
  }

  lemma AppendedElements(a: seq<string>, b: seq<string>)
    requires IsNormal(a) && IsNormal(b)
    ensures Elements(Normalize(a + b)) == Elements(a) + Elements(b)
  {
    hide Normalize, Without;
    NormalizeFixed(a);
    NormalizeFixed(b);
    MergeIsNormalizedConcat(a, b);
    MergeElements(a, b);
  }

  /** What an application does to the served models: the added ones are served, the removed ones are
      not, a model chosen for both stays, and nothing else changes; this is so if and only if no added name
      has a comma. */
  lemma ApplicationChangesModels(c: Channel, req: Selection, now: int)
    ensures var chosen := Chosen(c, req);
            && (Elements(ColumnNames(Apply(c, req, now).models))
                == (Elements(ColumnNames(c.models)) - Elements(chosen.remove)) + Elements(chosen.add)
                <==> SepFree(chosen.add, COMMA))
            && Elements(chosen.add) !! Elements(chosen.remove)
  {
    hide Normalize, Without, Within, Fields, Join;
    var chosen := Chosen(c, req);
    var names := ColumnNames(c.models);
    NormalizeFixed(names);
    NormalizeFixed(chosen.add);
    NormalizeFixed(chosen.remove);
    SubtractElements(Intersect(req.remove, Normalize(c.removed)), chosen.add);
    if SepFree(chosen.add, COMMA) {
      MergeElements(names, chosen.add);
      var merged := Merge(names, chosen.add);
      NormalizeFixed(merged);
      SubtractElements(chosen.remove, chosen.add);
      NormalizeFixed(Subtract(chosen.remove, chosen.add));
      var next := SelectedChanges(names, chosen.add, chosen.remove);
      assert forall m :: m in next ==> m in Elements(next);
      assert forall m :: m in names <==> m in Elements(names);
      assert SepFree(next, COMMA);
      ColumnRoundTrip(next);
    } else {
      var m :| m in chosen.add && COMMA in m;
      assert m !in ColumnNames(Apply(c, req, now).models);
      assert m in Elements(chosen.add);
    }
  }

  // ----- detecting again after a partial application -----

  /** The chosen parts, and what of the pending models is left. */
  lemma ChosenParts(c: Channel, req: Selection, now: int)
    requires IsNormal(c.detected) && IsNormal(c.removed)
    ensures var chosen, next := Chosen(c, req), Apply(c, req, now);
            && Elements(chosen.add) <= Elements(c.detected) && Elements(chosen.remove) <= Elements(c.removed)
            && Elements(next.detected) == Elements(c.detected) - Elements(chosen.add) - Elements(chosen.ignore)
            && Elements(next.removed) == Elements(c.removed) - Elements(chosen.remove)
            && next.ignored == NextIgnored(c.ignored, chosen) && IsNormal(next.ignored)
  {
    hide Normalize, Without, Within;
    var chosen := Chosen(c, req);
    var adds := Intersect(req.add, Normalize(c.detected));
    var removes := Intersect(req.remove, Normalize(c.removed));
    NormalizeFixed(c.detected);
    NormalizeFixed(c.removed);
    IntersectElements(req.add, c.detected);
    IntersectElements(req.ignore, c.detected);
    IntersectElements(req.remove, c.removed);
    NormalizeFixed(removes);
    SubtractElements(removes, adds);
    NormalizeFixed(chosen.remove);
    SubtractElements(c.removed, chosen.remove);
    AppendedElements(chosen.add, chosen.ignore);
    SubtractElements(c.detected, chosen.add + chosen.ignore);
    MergeElements(c.ignored, chosen.ignore);
    SubtractElements(Merge(c.ignored, chosen.ignore), chosen.add);
  }

  /** Of the upstream models that are neither served nor redirect targets nor added, the next ignore list
      ignores those that were ignored and those that were chosen to be. */
  ghost predicate IgnoresAsChosen(c: Channel, upstream: seq<string>, mapping: Mapping, matches: Matcher,
                                  chosen: Selection)
  {
    forall m | m in Normalize(upstream) && m !in ColumnNames(c.models)
               && m !in Targets(mapping) && m !in chosen.add ::
      (IsIgnored(NextIgnored(c.ignored, chosen), m, matches)
       <==> IsIgnored(Normalize(c.ignored), m, matches) || m in chosen.ignore)
  }

  lemma StillPending(c: Channel, upstream: seq<string>, mapping: Mapping, matches: Matcher, chosen: Selection,
                     names: seq<string>, left: set<string>)
    requires IsNormal(names) && IsNormal(NextIgnored(c.ignored, chosen))
    requires var adds := PendingAdd(ColumnNames(c.models), upstream, c.ignored, mapping, matches);
             left == Elements(adds) - Elements(chosen.add) - Elements(chosen.ignore)
    requires forall m :: m in Normalize(upstream) ==>
               (m in names <==> m in ColumnNames(c.models) || m in chosen.add)
    ensures Elements(PendingAdd(names, upstream, NextIgnored(c.ignored, chosen), mapping, matches)) == left
       <==> IgnoresAsChosen(c, upstream, mapping, matches, chosen)
  {
    hide Normalize, PendingAdd, NextIgnored, IsIgnored, ColumnNames;
    var ignored := NextIgnored(c.ignored, chosen);
    PendingMembers(ColumnNames(c.models), upstream, c.ignored, mapping, matches);
    PendingMembers(names, upstream, ignored, mapping, matches);
    NormalizeFixed(ColumnNames(c.models));
    NormalizeFixed(names);
    NormalizeFixed(ignored);
    var again := PendingAdd(names, upstream, ignored, mapping, matches);
    if Elements(again) == left {
      forall m | m in Normalize(upstream) && m !in ColumnNames(c.models) && m !in Targets(mapping) && m !in chosen.add
        ensures IsIgnored(ignored, m, matches) <==> IsIgnored(Normalize(c.ignored), m, matches) || m in chosen.ignore
      {
        assert m in Elements(again) <==> m in left;
      }
    }
    if IgnoresAsChosen(c, upstream, mapping, matches, chosen) {
      forall m
        ensures m in Elements(again) <==> m in left
      {
      }
    }
  }

  lemma StillRemovable(before: seq<string>, names: seq<string>, upstream: seq<string>, mapping: Mapping,
                       removed: set<string>, added: set<string>)
    requires IsNormal(before) && IsNormal(names)
    requires Elements(names) == (Elements(before) - removed) + added
    requires forall m :: m in added ==> m in Normalize(upstream)
    ensures Elements(PendingRemove(names, upstream, mapping))
         == Elements(PendingRemove(before, upstream, mapping)) - removed
  {
    hide Normalize, PendingRemove;
    PendingMembers(before, upstream, [], mapping, (_, _) => false);
    PendingMembers(names, upstream, [], mapping, (_, _) => false);
    NormalizeFixed(before);
    NormalizeFixed(names);
    forall m
      ensures m in PendingRemove(names, upstream, mapping) <==>
              m in PendingRemove(before, upstream, mapping) && m !in removed
    {
      assert m in names <==> m in Elements(names);
    }
  }

  /** Detecting again after any part of what was pending has been applied. If the added names can be stored,
      exactly the remaining removals are pending, and exactly the remaining additions if and only if the
      ignore list ignores what it did and what was chosen. */
  lemma DetectAfterPartialApplication(c: Channel, upstream: seq<string>, mapping: Mapping, matches: Matcher,
                                      req: Selection, now: int, later: int)
    ensures var first := Detect(c, upstream, mapping, matches, now, false);
            var chosen, applied := Chosen(first, req), Apply(first, req, later);
            var names := ColumnNames(applied.models);
            SepFree(chosen.add, COMMA) ==>
              && Elements(PendingRemove(names, upstream, mapping)) == Elements(applied.removed)
              && (Elements(PendingAdd(names, upstream, applied.ignored, mapping, matches)) == Elements(applied.detected)
                  <==> IgnoresAsChosen(c, upstream, mapping, matches, chosen))
  {
    hide Normalize, PendingAdd, PendingRemove, Apply, Chosen, NextIgnored, ColumnNames, IgnoresAsChosen;
    var first := Detect(c, upstream, mapping, matches, now, false);
    var chosen, applied := Chosen(first, req), Apply(first, req, later);
    var names := ColumnNames(applied.models);
    PendingMembers(ColumnNames(c.models), upstream, c.ignored, mapping, matches);
    NormalizeFixed(ColumnNames(c.models));
    ChosenParts(first, req, later);
    ApplicationChangesModels(first, req, later);
    assert forall m :: m in chosen.add <==> m in Elements(chosen.add);
    assert forall m :: m in first.detected <==> m in Elements(first.detected);
    assert forall m :: m in first.removed <==> m in Elements(first.removed);
    if SepFree(chosen.add, COMMA) {
      StillRemovable(ColumnNames(c.models), names, upstream, mapping, Elements(chosen.remove), Elements(chosen.add));
      forall m | m in Normalize(upstream)
        ensures m in names <==> m in ColumnNames(c.models) || m in chosen.add
      {
        assert m in names <==> m in Elements(names);
        assert m in ColumnNames(c.models) <==> m in Elements(ColumnNames(c.models));
        assert m in Elements(chosen.remove) ==> m in first.removed;
      }
      StillPending(c, upstream, mapping, matches, chosen, names, Elements(applied.detected));
    }
  }

  /** With upstream names that can be stored and do not look like patterns, exactly what was left is
      pending again, either way, whatever part was applied. */
  lemma OrdinaryNamesStayPending(c: Channel, upstream: seq<string>, mapping: Mapping, matches: Matcher,
                                 req: Selection, now: int, later: int)
    requires forall m :: m in Normalize(upstream) ==> COMMA !in m && !IsPattern(m)
    ensures var first := Detect(c, upstream, mapping, matches, now, false);
            var applied := Apply(first, req, later);
            var names := ColumnNames(applied.models);
            && Elements(PendingAdd(names, upstream, applied.ignored, mapping, matches)) == Elements(applied.detected)
            && Elements(PendingRemove(names, upstream, mapping)) == Elements(applied.removed)
  {
    hide Normalize, PendingAdd, PendingRemove, Apply, Chosen, NextIgnored, ColumnNames;
    var first := Detect(c, upstream, mapping, matches, now, false);
    var chosen := Chosen(first, req);
    PendingMembers(ColumnNames(c.models), upstream, c.ignored, mapping, matches);
    ChosenAreUpstream(first, req);
    DetectAfterPartialApplication(c, upstream, mapping, matches, req, now, later);
    NextIgnoredMembers(c.ignored, chosen);
    forall m | m in Normalize(upstream) && m !in ColumnNames(c.models) && m !in Targets(mapping) && m !in chosen.add
      ensures IsIgnored(NextIgnored(c.ignored, chosen), m, matches)
              <==> IsIgnored(Normalize(c.ignored), m, matches) || m in chosen.ignore
    {
      OrdinaryIgnores(Normalize(c.ignored), NextIgnored(c.ignored, chosen), chosen, m, matches);
    }
  }

  lemma ChosenAreUpstream(c: Channel, req: Selection)
    requires IsNormal(c.detected)
    ensures var chosen := Chosen(c, req);
            && IsNormal(chosen.add) && IsNormal(chosen.ignore)
            && (forall m :: m in chosen.add ==> m in c.detected)
            && (forall m :: m in chosen.ignore ==> m in c.detected)
  {
    hide Normalize;
    NormalizeFixed(c.detected);
  }

  lemma NextIgnoredMembers(ignored: seq<string>, chosen: Selection)
    requires IsNormal(chosen.add) && IsNormal(chosen.ignore)
    ensures forall entry :: entry in NextIgnored(ignored, chosen) <==>
              (entry in Normalize(ignored) || entry in chosen.ignore) && entry !in chosen.add
  {
    hide Normalize, Without;
    NormalizeFixed(chosen.add);
    NormalizeFixed(chosen.ignore);
    var grown := Merge(ignored, chosen.ignore);
    MergeElements(ignored, chosen.ignore);
    NormalizeFixed(grown);
    assert forall entry :: entry in grown <==> entry in Elements(grown);
  }

  lemma OrdinaryIgnores(before: seq<string>, after: seq<string>, chosen: Selection, m: string, matches: Matcher)
    requires forall entry :: entry in after <==> (entry in before || entry in chosen.ignore) && entry !in chosen.add
    requires forall entry :: entry in chosen.add || entry in chosen.ignore ==> !IsPattern(entry)
    requires m !in chosen.add
    ensures IsIgnored(after, m, matches) <==> IsIgnored(before, m, matches) || m in chosen.ignore
  {
    if IsIgnored(before, m, matches) {
      var entry :| entry in before && EntryIgnores(entry, m, matches);
      assert entry in after;
    }
    if m in chosen.ignore {
      assert m in after && EntryIgnores(m, m, matches);
    }
  }
}
