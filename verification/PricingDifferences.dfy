/** Comparing local prices with those of several upstream channels: a nested table of differences,
    pruned of the channels that differ nowhere and of the rows that show nothing. */
module PricingDifferences {
  import opened Options
  import opened PricingValues
  import opened Sets

  type Data = map<PricingField, map<string, Value>>

  datatype Channel = Channel(name: string, data: Data)

  datatype Item = Item(current: Value, upstreams: map<string, Value>, confidence: map<string, bool>)

  type Row = map<PricingField, Item>
  type Report = map<string, Row>

  /** What the report shows for a channel that agrees with the local value. */
  const SAME: Value := Str("same")

  const UNTRUSTED_RATIO := 37.5
  const UNTRUSTED_COMPLETION := 1.0

  function ValueMap(data: Data, f: PricingField): map<string, Value> {
    if f in data then data[f] else map[]
  }

  function Supplied(data: Data, f: PricingField, m: string): Option<Value> {
    if m in ValueMap(data, f) then Some(NormalizeValue(f, ValueMap(data, f)[m])) else None
  }

  function LocalValue(local: Data, f: PricingField, m: string): Value {
    match Supplied(local, f, m)
    case Some(v) => v
    case None => Null
  }

  /** The value recorded for a channel. */
  function Shown(current: Value, up: Option<Value>): Value {
    match up
    case None => if current == Null then SAME else Null
    case Some(v) => if ValuesEqual(current, v) then SAME else v
  }

  /** The channel supplies a value that is missing locally or differs from the local one. */
  predicate Differs(current: Value, up: Option<Value>) {
    up.Some? && (current == Null || !ValuesEqual(current, up.value))
  }

  predicate Included(local: Data, channels: seq<Channel>, f: PricingField, m: string) {
    exists i :: 0 <= i < |channels| && Differs(LocalValue(local, f, m), Supplied(channels[i].data, f, m))
  }

  function Names(channels: seq<Channel>): set<string> {
    set c | c in channels :: c.name
  }

  /** The last channel with a name: a later channel overwrites an earlier one of the same name. */
  function LastNamed(channels: seq<Channel>, name: string): (c: Channel)
    requires name in Names(channels)
    ensures c in channels && c.name == name
  {
    var last := channels[|channels| - 1];
    if last.name == name then
      last
    else
      assert channels == channels[..|channels| - 1] + [last];
      LastNamed(channels[..|channels| - 1], name)
  }

  predicate IsUntrusted(v: Value, untrusted: real) {
    match v
    case Float(x) => NearlyEqual(x, untrusted)
    case Integer(x) => NearlyEqual(x as real, untrusted)
    case _ => false
  }

  /** A channel with ratio tables is not trusted for a model that has the placeholder prices. */
  predicate Confident(data: Data, m: string) {
    var ratios, completions := ValueMap(data, ModelRatio), ValueMap(data, CompletionRatio);
    !(m in ratios && m in completions
      && IsUntrusted(ratios[m], UNTRUSTED_RATIO) && IsUntrusted(completions[m], UNTRUSTED_COMPLETION))
  }

  function Upstreams(local: Data, channels: seq<Channel>, f: PricingField, m: string): map<string, Value> {
    map name | name in Names(channels) ::
      Shown(LocalValue(local, f, m), Supplied(LastNamed(channels, name).data, f, m))
  }

  function ConfidenceOf(channels: seq<Channel>, names: set<string>, m: string): map<string, bool>
    requires names <= Names(channels)
  {
    map name | name in names :: Confident(LastNamed(channels, name).data, m)
  }

  function Confidence(channels: seq<Channel>, m: string): map<string, bool> {
    ConfidenceOf(channels, Names(channels), m)
  }

  function ModelsOf(data: Data): set<string> {
    set f, m | f in FIELDS && m in ValueMap(data, f) :: m
  }

  function AllModels(local: Data, channels: seq<Channel>): set<string> {
    ModelsOf(local) + set c, m | c in channels && m in ModelsOf(c.data) :: m
  }

  function ItemOf(local: Data, channels: seq<Channel>, f: PricingField, m: string): Item {
    Item(LocalValue(local, f, m), Upstreams(local, channels, f, m), Confidence(channels, m))
  }

  function RowOver(local: Data, channels: seq<Channel>, m: string, fields: seq<PricingField>): Row {
    map f | f in fields && Included(local, channels, f, m) :: ItemOf(local, channels, f, m)
  }

  function RowOf(local: Data, channels: seq<Channel>, m: string): Row {
    RowOver(local, channels, m, FIELDS)
  }

  /** The table before pruning. */
  function Table(local: Data, channels: seq<Channel>): Report {
    map m | m in AllModels(local, channels) && RowOf(local, channels, m) != map[] :: RowOf(local, channels, m)
  }

  predicate IsReal(v: Value) {
    v != Null && v != SAME
  }

  predicate ItemNames(item: Item, name: string) {
    name in item.upstreams && IsReal(item.upstreams[name])
  }

  predicate RowNames(row: Row, name: string) {
    exists f :: f in row && ItemNames(row[f], name)
  }

  /** The channels with a real difference somewhere in the table. */
  function Differing(report: Report): set<string> {
    set m, f, name | m in report && f in report[m] && name in report[m][f].upstreams
                     && IsReal(report[m][f].upstreams[name]) :: name
  }

  function PrunedItem(item: Item, keep: set<string>): Item {
    item.(upstreams := map n | n in item.upstreams && n in keep :: item.upstreams[n],
          confidence := map n | n in item.confidence && (n in keep || n !in item.upstreams) :: item.confidence[n])
  }

  predicate ShowsSomething(item: Item) {
    exists n :: n in item.upstreams && item.upstreams[n] != SAME
  }

  function PrunedRow(row: Row, keep: set<string>): Row {
    map f | f in row && ShowsSomething(PrunedItem(row[f], keep)) :: PrunedItem(row[f], keep)
  }

  function Pruned(report: Report, keep: set<string>): Report {
    map m | m in report && PrunedRow(report[m], keep) != map[] :: PrunedRow(report[m], keep)
  }

  function Differences(local: Data, channels: seq<Channel>): Report {
    var table := Table(local, channels);
    Pruned(table, Differing(table))
  }

  // ----- the code -----

  method CollectModels(data: Data, before: set<string>) returns (all: set<string>)
    ensures all == before + ModelsOf(data)
  {
    all := before;
    for i := 0 to |FIELDS|
      invariant all == before + set k, m | 0 <= k < i && m in ValueMap(data, FIELDS[k]) :: m
    {
      all := all + ValueMap(data, FIELDS[i]).Keys;
    }
  }

  lemma NamesStep(channels: seq<Channel>, i: nat)
    requires i < |channels|
    ensures Names(channels[..i + 1]) == Names(channels[..i]) + {channels[i].name}
  {
    assert channels[..i + 1] == channels[..i] + [channels[i]];
  }

  /** The last channel of a name among those seen so far. */
  lemma LastNamedStep(channels: seq<Channel>, i: nat, name: string)
    requires i < |channels| && name in Names(channels[..i + 1])
    ensures name != channels[i].name ==> name in Names(channels[..i])
    ensures LastNamed(channels[..i + 1], name)
         == if name == channels[i].name then channels[i] else LastNamed(channels[..i], name)
  {
    NamesStep(channels, i);
    assert channels[..i + 1][..i] == channels[..i];
  }

  function ConfidenceTable(data: Data, models: set<string>): map<string, bool> {
    map m | m in models :: Confident(data, m)
  }

  /** The confidence table of one channel. */
  method ChannelConfidence(data: Data, allModels: set<string>) returns (table: map<string, bool>)
    ensures table == ConfidenceTable(data, allModels)
  {
    table := map[];
    var ratios, completions := ValueMap(data, ModelRatio), ValueMap(data, CompletionRatio);
    var rest := allModels;
    while rest != {}
      invariant rest <= allModels
      invariant table == map m | m in allModels - rest :: Confident(data, m)
      decreases rest
    {
      ghost var some := SomeMember(rest);
      var m :| m in rest;
      var confident := true;
      if |ratios| > 0 && |completions| > 0 {
        if m in ratios && m in completions
           && IsUntrusted(ratios[m], UNTRUSTED_RATIO) && IsUntrusted(completions[m], UNTRUSTED_COMPLETION) {
          confident := false;
        }
      }
      table := table[m := confident];
      rest := rest - {m};
    }
  }

  lemma UpstreamsStep(local: Data, channels: seq<Channel>, i: nat, f: PricingField, m: string)
    requires i < |channels|
    ensures Upstreams(local, channels[..i + 1], f, m)
         == Upstreams(local, channels[..i], f, m)
              [channels[i].name := Shown(LocalValue(local, f, m), Supplied(channels[i].data, f, m))]
  {
    hide Shown, Supplied, LocalValue, LastNamed, Names;
    var before, after := Upstreams(local, channels[..i], f, m), Upstreams(local, channels[..i + 1], f, m);
    var shown := Shown(LocalValue(local, f, m), Supplied(channels[i].data, f, m));
    NamesStep(channels, i);
    forall name | name in after
      ensures after[name] == if name == channels[i].name then shown else before[name]
    {
      LastNamedStep(channels, i, name);
    }
    assert after.Keys == before.Keys + {channels[i].name};
  }

  lemma IncludedStep(local: Data, channels: seq<Channel>, i: nat, f: PricingField, m: string)
    requires i < |channels|
    ensures Included(local, channels[..i + 1], f, m)
       <==> Included(local, channels[..i], f, m) || Differs(LocalValue(local, f, m), Supplied(channels[i].data, f, m))
  {
    hide Differs, Supplied, LocalValue;
    var before, after := channels[..i], channels[..i + 1];
    assert after[i] == channels[i];
    assert forall k :: 0 <= k < i ==> after[k] == before[k];
    if Included(local, before, f, m) {
      var k :| 0 <= k < i && Differs(LocalValue(local, f, m), Supplied(before[k].data, f, m));
      assert Differs(LocalValue(local, f, m), Supplied(after[k].data, f, m));
    }
  }

  lemma NamesOfPrefix(channels: seq<Channel>, i: nat)
    requires i < |channels|
    ensures Names(channels[..i]) <= Names(channels) && channels[i].name in Names(channels)
    ensures Names(channels[..i + 1]) == Names(channels[..i]) + {channels[i].name}
  {
    NamesStep(channels, i);
    assert channels[i] in channels;
  }

  lemma ConfidenceStep(channels: seq<Channel>, names: set<string>, name: string, m: string)
    requires names <= Names(channels) && name in Names(channels)
    ensures ConfidenceOf(channels, names + {name}, m)
         == ConfidenceOf(channels, names, m)[name := Confident(LastNamed(channels, name).data, m)]
  {
    hide Confident, LastNamed, Names;
  }

  /** One cell of the table: scans the channels and reports whether the cell is included. */
  method CompareField(local: Data, channels: seq<Channel>, f: PricingField, m: string,
                      confidence: map<string, map<string, bool>>) returns (included: bool, item: Item)
    requires confidence.Keys == Names(channels)
    requires forall n :: n in confidence ==>
               m in confidence[n] && confidence[n][m] == Confident(LastNamed(channels, n).data, m)
    ensures included <==> Included(local, channels, f, m)
    ensures item == ItemOf(local, channels, f, m)
  {
    hide Upstreams, Included, ConfidenceOf, LocalValue, Supplied, Names, Confident, LastNamed, ValuesEqual;
    var current := LocalValue(local, f, m);
    var upstreams: map<string, Value> := map[];
    var confidences: map<string, bool> := map[];
    var hasUpstreamValue, hasDifference := false, false;
    NoChannels(local, channels, f, m);
    for i := 0 to |channels|
      invariant upstreams == Upstreams(local, channels[..i], f, m)
      invariant Names(channels[..i]) <= Names(channels)
      invariant confidences == ConfidenceOf(channels, Names(channels[..i]), m)
      invariant (if current != Null then hasDifference else hasUpstreamValue) == Included(local, channels[..i], f, m)
    {
      var up := Supplied(channels[i].data, f, m);
      var value := Null;
      if up.Some? {
        value := up.value;
        hasUpstreamValue := true;
        if current != Null && !ValuesEqual(current, value) {
          hasDifference := true;
        } else if ValuesEqual(current, value) {
          value := SAME;
        }
      }
      if value == Null && current == Null {
        value := SAME;
      }
      if current == Null && value != Null && value != SAME {
        hasDifference := true;
      }
      UpstreamsStep(local, channels, i, f, m);
      IncludedStep(local, channels, i, f, m);
      NamesOfPrefix(channels, i);
      ConfidenceStep(channels, Names(channels[..i]), channels[i].name, m);
      NullEqualsNull();
      upstreams := upstreams[channels[i].name := value];
      confidences := confidences[channels[i].name := confidence[channels[i].name][m]];
    }
    assert channels[..|channels|] == channels;
    included := if current != Null then hasDifference else hasUpstreamValue;
    item := Item(current, upstreams, confidences);
  }

  lemma NullEqualsNull()
    ensures ValuesEqual(Null, Null)
  {
  }

  lemma NoChannels(local: Data, channels: seq<Channel>, f: PricingField, m: string)
    ensures Names([]) == {} && Names(channels[..0]) == {}
    ensures Upstreams(local, channels[..0], f, m) == map[]
    ensures ConfidenceOf(channels, {}, m) == map[]
    ensures !Included(local, channels[..0], f, m)
  {
  }

  /** The channels that appear with a real difference. */
  method DifferingChannels(report: Report) returns (found: set<string>)
    ensures found == Differing(report)
  {
    found := {};
    var models := report.Keys;
    while models != {}
      invariant models <= report.Keys
      invariant forall n :: n in found <==> exists m :: m in report.Keys - models && RowNames(report[m], n)
      decreases models
    {
      ghost var some := SomeMember(models);
      var m :| m in models;
      var row := report[m];
      ghost var before := found;
      var fields := row.Keys;
      while fields != {}
        invariant fields <= row.Keys
        invariant forall n :: n in found <==> n in before || exists f :: f in row.Keys - fields && ItemNames(row[f], n)
        decreases fields
      {
        ghost var some := SomeMember(fields);
        var f :| f in fields;
        var upstreams := row[f].upstreams;
        found := found + set n | n in upstreams && IsReal(upstreams[n]);
        fields := fields - {f};
      }
      models := models - {m};
    }
  }

  /** Removes the silent channels from every item, then the rows and models left with nothing. */
  method Prune(report: Report, keep: set<string>) returns (pruned: Report)
    ensures pruned == Pruned(report, keep)
  {
    hide PrunedRow;
    pruned := report;
    var models := report.Keys;
    while models != {}
      invariant models <= report.Keys
      invariant forall m :: m in pruned <==> m in report && (m in models || PrunedRow(report[m], keep) != map[])
      invariant forall m :: m in pruned ==>
                  pruned[m] == if m in models then report[m] else PrunedRow(report[m], keep)
      decreases models
    {
      ghost var some := SomeMember(models);
      var m :| m in models;
      var row := PruneOneRow(report[m], keep);
      pruned := if |row| == 0 then pruned - {m} else pruned[m := row];
      models := models - {m};
    }
  }

  method PruneOneRow(row: Row, keep: set<string>) returns (pruned: Row)
    ensures pruned == PrunedRow(row, keep)
  {
    pruned := row;
    var fields := row.Keys;
    while fields != {}
      invariant fields <= row.Keys
      invariant forall f :: f in pruned <==> f in row && (f in fields || ShowsSomething(PrunedItem(row[f], keep)))
      invariant forall f :: f in pruned ==> pruned[f] == if f in fields then row[f] else PrunedItem(row[f], keep)
      decreases fields
    {
      ghost var some := SomeMember(fields);
      var f :| f in fields;
      var item := PrunedItem(row[f], keep);
      var allSame := forall n :: n in item.upstreams ==> item.upstreams[n] == SAME;
      if |item.upstreams| == 0 || allSame {
        pruned := pruned - {f};
      } else {
        pruned := pruned[f := item];
      }
      fields := fields - {f};
    }
  }

  method CollectAllModels(local: Data, channels: seq<Channel>) returns (all: set<string>)
    ensures all == AllModels(local, channels)
  {
    hide ModelsOf;
    all := CollectModels(local, {});
    for i := 0 to |channels|
      invariant all == AllModels(local, channels[..i])
    {
      assert channels[..i + 1] == channels[..i] + [channels[i]];
      all := CollectModels(channels[i].data, all);
    }
    assert channels[..|channels|] == channels;
  }

  /** The confidence tables of all channels, by channel name. */
  method ConfidenceTables(channels: seq<Channel>, allModels: set<string>)
      returns (tables: map<string, map<string, bool>>)
    ensures tables.Keys == Names(channels)
    ensures forall n :: n in tables ==> tables[n] == ConfidenceTable(LastNamed(channels, n).data, allModels)
  {
    hide LastNamed, Names, ConfidenceTable;
    NoNames(channels);
    tables := map[];
    for i := 0 to |channels|
      invariant tables.Keys == Names(channels[..i])
      invariant forall n :: n in tables ==> tables[n] == ConfidenceTable(LastNamed(channels[..i], n).data, allModels)
    {
      NamesStep(channels, i);
      var table := ChannelConfidence(channels[i].data, allModels);
      ghost var before := tables;
      tables := tables[channels[i].name := table];
      forall n | n in tables
        ensures tables[n] == ConfidenceTable(LastNamed(channels[..i + 1], n).data, allModels)
      {
        LastNamedStep(channels, i, n);
      }
    }
    assert channels[..|channels|] == channels;
  }

  lemma NoNames(channels: seq<Channel>)
    ensures Names(channels[..0]) == {}
  {
  }

  method BuildRow(local: Data, channels: seq<Channel>, m: string, confidence: map<string, map<string, bool>>)
      returns (row: Row)
    requires confidence.Keys == Names(channels)
    requires forall n :: n in confidence ==>
               m in confidence[n] && confidence[n][m] == Confident(LastNamed(channels, n).data, m)
    ensures row == RowOf(local, channels, m)
  {
    hide Included, ItemOf, Names, Confident, LastNamed, RowOver;
    RowStep(local, channels, m, FIELDS, 0);
    row := map[];
    for j := 0 to |FIELDS|
      invariant row == RowOver(local, channels, m, FIELDS[..j])
    {
      var included, item := CompareField(local, channels, FIELDS[j], m, confidence);
      RowStep(local, channels, m, FIELDS, j);
      if included {
        row := row[FIELDS[j] := item];
      }
    }
    assert FIELDS[..|FIELDS|] == FIELDS;
  }

  lemma RowStep(local: Data, channels: seq<Channel>, m: string, fields: seq<PricingField>, j: nat)
    requires j < |fields|
    ensures RowOver(local, channels, m, fields[..0]) == map[]
    ensures var row := RowOver(local, channels, m, fields[..j]);
            RowOver(local, channels, m, fields[..j + 1])
            == if Included(local, channels, fields[j], m) then row[fields[j] := ItemOf(local, channels, fields[j], m)]
               else row
  {
    hide Included, ItemOf;
    assert fields[..j + 1] == fields[..j] + [fields[j]];
  }

  method BuildDifferences(local: Data, channels: seq<Channel>) returns (report: Report)
    ensures report == Differences(local, channels)
  {
    hide RowOf, Names, Confident, LastNamed, AllModels, Differing, Pruned;
    var allModels := CollectAllModels(local, channels);
    var confidence := ConfidenceTables(channels, allModels);
    var table: Report := map[];
    var models := allModels;
    while models != {}
      invariant models <= allModels
      invariant table == map m | m in allModels - models && RowOf(local, channels, m) != map[]
                        :: RowOf(local, channels, m)
      decreases models
    {
      ghost var some := SomeMember(models);
      var m :| m in models;
      var row := BuildRow(local, channels, m, confidence);
      if row != map[] {
        table := table[m := row];
      }
      models := models - {m};
    }
    assert allModels - {} == allModels;
    var keep := DifferingChannels(table);
    report := Prune(table, keep);
  }

  // ----- which cells survive -----

  predicate Reported(report: Report, f: PricingField, m: string) {
    m in report && f in report[m]
  }

  ghost predicate DistinctNames(channels: seq<Channel>) {
    forall i, j :: 0 <= i < j < |channels| ==> channels[i].name != channels[j].name
  }

  /** What the table shows for one channel in one cell. */
  function Cell(local: Data, c: Channel, f: PricingField, m: string): Value {
    Shown(LocalValue(local, f, m), Supplied(c.data, f, m))
  }

  /** The channel supplies a value for the cell that differs from, or is missing in, the local data,
      and that is neither null nor the literal that means agreement. */
  predicate Visible(local: Data, c: Channel, f: PricingField, m: string) {
    && Differs(LocalValue(local, f, m), Supplied(c.data, f, m))
    && IsReal(Supplied(c.data, f, m).value)
  }

  ghost predicate DiffersSomewhere(local: Data, c: Channel) {
    exists f, m :: Visible(local, c, f, m)
  }

  /** The local data have a value and the channel has none (or a null). */
  predicate Lacks(local: Data, c: Channel, f: PricingField, m: string) {
    LocalValue(local, f, m) != Null && (Supplied(c.data, f, m) in {None, Some(Null)})
  }

  /** A listed value; `None` if the table has none, or a null. */
  function Given(data: Data, f: PricingField, m: string): Option<Value> {
    if f in data && m in data[f] && data[f][m] != Null then Some(data[f][m]) else None
  }

  /** The value that a listed one counts as: an integer is a float in all fields but the billing mode and the
      billing expression. */
  function Counted(f: PricingField, v: Value): Value {
    if f != BillingMode && f != BillingExpr && v.Integer? then Float(v.whole as real) else v
  }

  /** Two listed values agree if they are the same, or count as floats less than a billionth apart. */
  predicate Agree(f: PricingField, a: Value, b: Value) {
    var x, y := Counted(f, a), Counted(f, b);
    a == b || (x.Float? && y.Float? && -0.000000001 < x.number - y.number < 0.000000001)
  }

  lemma AgreeExactly(f: PricingField, a: Value, b: Value)
    ensures ValuesEqual(NormalizeValue(f, a), NormalizeValue(f, b)) <==> Agree(f, a, b)
  {
    if a.Integer? && b.Integer? && a != b {
      assert a.whole as real - b.whole as real >= 1.0 || a.whole as real - b.whole as real <= -1.0;
    }
  }

  lemma GivenIsSupplied(data: Data, f: PricingField, m: string)
    ensures match Given(data, f, m)
            case None => Supplied(data, f, m) in {None, Some(Null)} && LocalValue(data, f, m) == Null
            case Some(v) =>
              && v != Null && Supplied(data, f, m) == Some(NormalizeValue(f, v)) && NormalizeValue(f, v) != Null
              && LocalValue(data, f, m) == NormalizeValue(f, v) == Counted(f, v)
              && (NormalizeValue(f, v) == SAME <==> v == SAME)
  {
  }

  /** What a cell shows for a channel, told by the listed values: agreement if both give none or they agree,
      a null if only the channel gives none, and otherwise what the channel gives. A difference is visible
      if that is not the literal for agreement. */
  lemma CellExactly(local: Data, c: Channel, f: PricingField, m: string)
    ensures var mine, theirs := Given(local, f, m), Given(c.data, f, m);
            var agree := mine.Some? && theirs.Some? && Agree(f, mine.value, theirs.value);
            && Cell(local, c, f, m)
               == (if agree || (mine.None? && theirs.None?) then Str("same")
                   else if theirs.None? then Null
                   else Counted(f, theirs.value))
            && (Visible(local, c, f, m) <==> theirs.Some? && !agree && theirs.value != Str("same"))
            && (Lacks(local, c, f, m) <==> mine.Some? && theirs.None?)
            && LocalValue(local, f, m) == (if mine.Some? then Counted(f, mine.value) else Null)
  {
    hide Given, Supplied, LocalValue, NormalizeValue, Agree, Counted, ValuesEqual;
    var mine, theirs := Given(local, f, m), Given(c.data, f, m);
    GivenIsSupplied(local, f, m);
    GivenIsSupplied(c.data, f, m);
    if theirs.Some? && mine.Some? {
      AgreeExactly(f, mine.value, theirs.value);
    } else if theirs.Some? {
      NullIsOnlyItself(NormalizeValue(f, theirs.value));
    } else if mine.Some? {
      NullIsOnlyItself(NormalizeValue(f, mine.value));
    } else {
      NullIsOnlyItself(Null);
    }
  }

  lemma NullIsOnlyItself(v: Value)
    ensures ValuesEqual(Null, v) <==> v == Null
    ensures ValuesEqual(v, Null) <==> v == Null
  {
  }

  /** A price is a placeholder if it is less than a billionth away from it. */
  predicate Near(v: Value, x: real) {
    match v
    case Float(number) => x - 0.000000001 < number < x + 0.000000001
    case Integer(n) => x - 0.000000001 < n as real < x + 0.000000001
    case _ => false
  }

  /** A channel is distrusted for a model exactly if it lists both a model ratio of 37.5 and a completion
      ratio of 1. */
  lemma ConfidentExactly(data: Data, m: string)
    ensures !Confident(data, m) <==>
              && Given(data, ModelRatio, m).Some? && Near(Given(data, ModelRatio, m).value, 37.5)
              && Given(data, CompletionRatio, m).Some? && Near(Given(data, CompletionRatio, m).value, 1.0)
  {
  }

  lemma CellKinds(local: Data, c: Channel, f: PricingField, m: string)
    ensures IsReal(Cell(local, c, f, m)) <==> Visible(local, c, f, m)
    ensures Cell(local, c, f, m) == Null <==> Lacks(local, c, f, m)
  {
  }

  lemma {:induction false} LastNamedIsTheOne(channels: seq<Channel>, i: nat)
    requires DistinctNames(channels) && i < |channels|
    ensures channels[i].name in Names(channels)
    ensures LastNamed(channels, channels[i].name) == channels[i]
  {
    assert channels[i] in channels;
    var n := |channels| - 1;
    if i < n {
      LastNamedIsTheOne(channels[..n], i);
    }
  }

  lemma FieldsAreAll(f: PricingField)
    ensures f in FIELDS
  {
    match f {
      case ModelRatio => assert FIELDS[0] == f;
      case CompletionRatio => assert FIELDS[1] == f;
      case CacheRatio => assert FIELDS[2] == f;
      case CreateCacheRatio => assert FIELDS[3] == f;
      case ImageRatio => assert FIELDS[4] == f;
      case AudioRatio => assert FIELDS[5] == f;
      case AudioCompletionRatio => assert FIELDS[6] == f;
      case ModelPrice => assert FIELDS[7] == f;
      case BillingMode => assert FIELDS[8] == f;
      case BillingExpr => assert FIELDS[9] == f;
    }
  }

  lemma SuppliedIsListed(data: Data, f: PricingField, m: string)
    requires Supplied(data, f, m).Some?
    ensures m in ModelsOf(data)
  {
    FieldsAreAll(f);
    assert m in ValueMap(data, f);
  }

  lemma IncludedIsListed(local: Data, channels: seq<Channel>, f: PricingField, m: string)
    requires Included(local, channels, f, m)
    ensures m in AllModels(local, channels)
  {
    hide ModelsOf, Supplied, LocalValue;
    var i :| 0 <= i < |channels| && Differs(LocalValue(local, f, m), Supplied(channels[i].data, f, m));
    SuppliedIsListed(channels[i].data, f, m);
    assert channels[i] in channels;
  }

  lemma RowHas(local: Data, channels: seq<Channel>, f: PricingField, m: string)
    ensures f in RowOf(local, channels, m) <==> Included(local, channels, f, m)
    ensures f in RowOf(local, channels, m) ==> RowOf(local, channels, m)[f] == ItemOf(local, channels, f, m)
  {
    hide Included, ItemOf;
    FieldsAreAll(f);
  }

  /** The table before pruning has a row for exactly the included cells. */
  lemma TableRows(local: Data, channels: seq<Channel>, f: PricingField, m: string)
    ensures Reported(Table(local, channels), f, m) <==> Included(local, channels, f, m)
    ensures Reported(Table(local, channels), f, m) ==>
              Table(local, channels)[m][f] == ItemOf(local, channels, f, m)
  {
    hide ItemOf, Included, RowOf, AllModels;
    RowHas(local, channels, f, m);
    if Included(local, channels, f, m) {
      IncludedIsListed(local, channels, f, m);
    }
  }

  lemma TableUpstreams(local: Data, channels: seq<Channel>, f: PricingField, m: string, i: nat)
    requires DistinctNames(channels) && i < |channels|
    ensures var item := ItemOf(local, channels, f, m);
            var name := channels[i].name;
            && name in item.upstreams && item.upstreams[name] == Cell(local, channels[i], f, m)
            && name in item.confidence && item.confidence[name] == Confident(channels[i].data, m)
  {
    LastNamedIsTheOne(channels, i);
  }

  /** A channel is kept exactly if it differs visibly somewhere. */
  lemma KeptChannels(local: Data, channels: seq<Channel>, i: nat)
    requires DistinctNames(channels) && i < |channels|
    ensures channels[i].name in Differing(Table(local, channels)) <==> DiffersSomewhere(local, channels[i])
  {
    hide Table, ItemOf, Included, Visible, Cell, IsReal;
    var table := Table(local, channels);
    var name := channels[i].name;
    if name in Differing(table) {
      var m, f :| m in table && f in table[m] && name in table[m][f].upstreams && IsReal(table[m][f].upstreams[name]);
      TableRows(local, channels, f, m);
      TableUpstreams(local, channels, f, m, i);
      CellKinds(local, channels[i], f, m);
    }
    if DiffersSomewhere(local, channels[i]) {
      var f, m :| Visible(local, channels[i], f, m);
      VisibleIsIncluded(local, channels, f, m, i);
      TableRows(local, channels, f, m);
      TableUpstreams(local, channels, f, m, i);
      CellKinds(local, channels[i], f, m);
      assert Reported(table, f, m);
    }
  }

  lemma VisibleIsIncluded(local: Data, channels: seq<Channel>, f: PricingField, m: string, i: nat)
    requires i < |channels| && Visible(local, channels[i], f, m)
    ensures Included(local, channels, f, m)
  {
  }

  lemma PrunedRows(report: Report, keep: set<string>, f: PricingField, m: string)
    ensures Reported(Pruned(report, keep), f, m)
       <==> Reported(report, f, m) && ShowsSomething(PrunedItem(report[m][f], keep))
    ensures Reported(Pruned(report, keep), f, m) ==> Pruned(report, keep)[m][f] == PrunedItem(report[m][f], keep)
  {
    hide PrunedItem, ShowsSomething;
    if Reported(report, f, m) && ShowsSomething(PrunedItem(report[m][f], keep)) {
      assert f in PrunedRow(report[m], keep);
    }
  }

  /** Exactly which cells the report keeps: those where some channel differs visibly, and those that
      differ only by a null or by the agreement literal while a channel that differs elsewhere lacks
      the value. */
  lemma SurvivesExactly(local: Data, channels: seq<Channel>, f: PricingField, m: string)
    requires DistinctNames(channels)
    ensures Reported(Differences(local, channels), f, m)
       <==> || (exists i :: 0 <= i < |channels| && Visible(local, channels[i], f, m))
            || (Included(local, channels, f, m)
                && exists i :: 0 <= i < |channels| && Lacks(local, channels[i], f, m)
                          && DiffersSomewhere(local, channels[i]))
  {
    hide Table, ItemOf, Included, Visible, Cell, DiffersSomewhere, Lacks, Differing, Pruned;
    var table := Table(local, channels);
    var keep := Differing(table);
    PrunedRows(table, keep, f, m);
    TableRows(local, channels, f, m);
    if Reported(Differences(local, channels), f, m) {
      var item := PrunedItem(table[m][f], keep);
      var n :| n in item.upstreams && item.upstreams[n] != SAME;
      var i := NameIndex(local, channels, f, m, n);
      TableUpstreams(local, channels, f, m, i);
      KeptChannels(local, channels, i);
      CellKinds(local, channels[i], f, m);
    }
    forall i | 0 <= i < |channels| && Visible(local, channels[i], f, m)
      ensures Reported(Differences(local, channels), f, m)
    {
      VisibleIsIncluded(local, channels, f, m, i);
      assert DiffersSomewhere(local, channels[i]) by { VisibleSomewhere(local, channels[i], f, m); }
      KeptAndShown(local, channels, f, m, i);
    }
    forall i | 0 <= i < |channels| && Included(local, channels, f, m)
               && Lacks(local, channels[i], f, m) && DiffersSomewhere(local, channels[i])
      ensures Reported(Differences(local, channels), f, m)
    {
      KeptAndShown(local, channels, f, m, i);
    }
  }

  lemma VisibleSomewhere(local: Data, c: Channel, f: PricingField, m: string)
    requires Visible(local, c, f, m)
    ensures DiffersSomewhere(local, c)
  {
    hide Visible;
  }

  /** The channel behind a name of a table row. */
  lemma NameIndex(local: Data, channels: seq<Channel>, f: PricingField, m: string, name: string) returns (i: nat)
    requires name in ItemOf(local, channels, f, m).upstreams
    ensures i < |channels| && channels[i].name == name
  {
    var c :| c in channels && c.name == name;
    i :| 0 <= i < |channels| && channels[i] == c;
  }

  lemma KeptAndShown(local: Data, channels: seq<Channel>, f: PricingField, m: string, i: nat)
    requires DistinctNames(channels) && i < |channels| && Included(local, channels, f, m)
    requires Visible(local, channels[i], f, m) || Lacks(local, channels[i], f, m)
    requires DiffersSomewhere(local, channels[i])
    ensures Reported(Differences(local, channels), f, m)
  {
    hide Table, ItemOf, Included, Visible, Cell, DiffersSomewhere, Lacks, Differing, Pruned;
    var table := Table(local, channels);
    var keep := Differing(table);
    PrunedRows(table, keep, f, m);
    TableRows(local, channels, f, m);
    TableUpstreams(local, channels, f, m, i);
    KeptChannels(local, channels, i);
    CellKinds(local, channels[i], f, m);
    assert channels[i].name in PrunedItem(table[m][f], keep).upstreams;
  }

  /** No channel supplies a null or the agreement literal. */
  ghost predicate OrdinaryValues(channels: seq<Channel>) {
    forall i, f, m :: 0 <= i < |channels| && Supplied(channels[i].data, f, m).Some? ==>
      IsReal(Supplied(channels[i].data, f, m).value)
  }

  /** For ordinary values the report has a cell exactly if some channel supplies a value that is
      missing locally or differs from the local one. */
  lemma DifferenceSurvives(local: Data, channels: seq<Channel>, f: PricingField, m: string)
    requires DistinctNames(channels) && OrdinaryValues(channels)
    ensures Reported(Differences(local, channels), f, m)
       <==> exists i :: 0 <= i < |channels| && Differs(LocalValue(local, f, m), Supplied(channels[i].data, f, m))
  {
    hide Differences, Supplied, LocalValue, Differs, IsReal, Lacks, DiffersSomewhere;
    SurvivesExactly(local, channels, f, m);
    forall i | 0 <= i < |channels| && Differs(LocalValue(local, f, m), Supplied(channels[i].data, f, m))
      ensures Visible(local, channels[i], f, m)
    {
      DiffersIsSupplied(LocalValue(local, f, m), Supplied(channels[i].data, f, m));
    }
  }

  lemma DiffersIsSupplied(current: Value, up: Option<Value>)
    requires Differs(current, up)
    ensures up.Some?
  {
  }

  /** Whatever the names and values, every channel left in the report has a real difference in some
      row of the report. */
  lemma EveryChannelLeftDiffers(local: Data, channels: seq<Channel>, f: PricingField, m: string, name: string)
    ensures var report := Differences(local, channels);
            Reported(report, f, m) && name in report[m][f].upstreams ==>
              exists g, k :: Reported(report, g, k) && ItemNames(report[k][g], name)
  {
    hide Table, Pruned;
    var table := Table(local, channels);
    var keep := Differing(table);
    var report := Differences(local, channels);
    PrunedRows(table, keep, f, m);
    if Reported(report, f, m) && name in report[m][f].upstreams {
      var k, g :| k in table && g in table[k] && name in table[k][g].upstreams && IsReal(table[k][g].upstreams[name]);
      PrunedRows(table, keep, g, k);
      var item := PrunedItem(table[k][g], keep);
      assert ItemNames(item, name) && ShowsSomething(item);
    }
  }

  /** A reported cell has the local value, and for exactly the channels that differ somewhere the
      value and the trust of that channel. */
  lemma ReportIsFaithful(local: Data, channels: seq<Channel>, f: PricingField, m: string, i: nat)
    requires DistinctNames(channels) && i < |channels|
    ensures Reported(Differences(local, channels), f, m) ==>
              var item := Differences(local, channels)[m][f];
              var name := channels[i].name;
              && item.current == LocalValue(local, f, m)
              && (name in item.upstreams <==> DiffersSomewhere(local, channels[i]))
              && (name in item.confidence <==> name in item.upstreams)
              && (name in item.upstreams ==>
                    && item.upstreams[name] == Cell(local, channels[i], f, m)
                    && item.confidence[name] == Confident(channels[i].data, m))
  {
    hide Table, Included, Cell, DiffersSomewhere, Differing, Pruned, Confident, Names, LastNamed;
    PrunedRows(Table(local, channels), Differing(Table(local, channels)), f, m);
    TableRows(local, channels, f, m);
    TableUpstreams(local, channels, f, m, i);
    KeptChannels(local, channels, i);
  }

  /** Nulls and values that happen to be the agreement literal are never reported on their own. */
  lemma UnrealValuesAreHidden(local: Data, channels: seq<Channel>, f: PricingField, m: string)
    requires DistinctNames(channels)
    requires forall i, g, k :: 0 <= i < |channels| && Supplied(channels[i].data, g, k).Some? ==>
               !IsReal(Supplied(channels[i].data, g, k).value)
    ensures !Reported(Differences(local, channels), f, m)
  {
    hide Differences, Supplied, LocalValue, IsReal, Included, Lacks;
    SurvivesExactly(local, channels, f, m);
    forall i, g, k | 0 <= i < |channels|
      ensures !Visible(local, channels[i], g, k)
    {
    }
  }

  /** So a channel can differ from the local value without being reported: its value is the literal. */
  lemma DifferenceCanBeHidden()
    ensures exists local, channels, f, m ::
              && DistinctNames(channels) && Included(local, channels, f, m)
              && !Reported(Differences(local, channels), f, m)
  {
    hide Differences, Included;
    var mine: Data := map[BillingMode := map["m" := Str("ratio")]];
    var c := Channel("up", map[BillingMode := map["m" := SAME]]);
    HiddenExample(mine, c);
    UnrealValuesAreHidden(mine, [c], BillingMode, "m");
    assert DistinctNames([c]) && Included(mine, [c], BillingMode, "m")
           && !Reported(Differences(mine, [c]), BillingMode, "m");
  }

  lemma HiddenExample(local: Data, c: Channel)
    requires local == map[BillingMode := map["m" := Str("ratio")]]
    requires c.data == map[BillingMode := map["m" := SAME]]
    ensures Included(local, [c], BillingMode, "m")
    ensures forall g, k :: Supplied(c.data, g, k).Some? ==> !IsReal(Supplied(c.data, g, k).value)
  {
    assert |"ratio"| != |"same"|;
    assert [c][0] == c;
  }
}
