/** Managing the keys of a multi-key channel: keys are the lines of one text column, and their
    status, disabling time and reason are kept in maps from key index. */
module MultiKey {
  import opened Options
  import opened Text

  const NEWLINE: char := '\n'
  const ENABLED: int := 1
  const MANUALLY_DISABLED: int := 2
  const AUTO_DISABLED: int := 3

  /** How a text in brackets is read as an array of raw elements, if it is one. */
  type ArrayReader = string -> Option<seq<string>>

  /** What every reader of arrays guarantees: no element is blank, and the elements are within the text,
      together with the commas between them and the brackets around them. */
  ghost predicate ReadsArrays(json: ArrayReader) {
    forall s, parts :: json(s) == Some(parts) ==>
      "" !in parts && TotalLength(parts) + |parts| + 1 <= |s|
  }

  /** A multi-key channel as stored, and the reader of its key column. */
  datatype Channel = Channel(
    json: ArrayReader,
    column: string,
    size: int,
    status: map<int, int>,
    disabledTime: map<int, int>,
    disabledReason: map<int, string>)

  datatype Outcome = Done | OutOfRange | LastKey | NothingToDo

  predicate IsArray(json: ArrayReader, column: string) {
    "[" <= TrimSpace(column) && json(TrimSpace(column)).Some?
  }

  /** The keys of a column: the elements of an array, or else the lines. */
  function ReadKeys(json: ArrayReader, column: string): seq<string> {
    if column != "" && IsArray(json, column) then json(TrimSpace(column)).value else Fields(column, NEWLINE)
  }

  /** How many keys saving counts: an empty array is counted as a line. */
  function CountKeys(json: ArrayReader, column: string): nat {
    if column != "" && IsArray(json, column) && json(TrimSpace(column)).value != [] then
      |json(TrimSpace(column)).value|
    else
      |Fields(column, NEWLINE)|
  }

  function Keys(c: Channel): seq<string> {
    ReadKeys(c.json, c.column)
  }

  /** A key without an entry is enabled. */
  function StatusOf(status: map<int, int>, i: int): int {
    if i in status then status[i] else ENABLED
  }

  /** A key with the status that routing sees. */
  datatype Entry = Entry(key: string, status: int)

  function View(keys: seq<string>, status: map<int, int>): (r: seq<Entry>)
    ensures |r| == |keys|
    ensures forall i :: 0 <= i < |keys| ==> r[i] == Entry(keys[i], StatusOf(status, i))
  {
    seq(|keys|, i requires 0 <= i < |keys| => Entry(keys[i], StatusOf(status, i)))
  }

  function Entries(c: Channel): seq<Entry> {
    View(Keys(c), c.status)
  }

  /** The recorded size is the number of keys. */
  predicate Consistent(c: Channel) {
    c.size == |Keys(c)|
  }

  /** Every index in the three maps belongs to a key. */
  ghost predicate IndicesInRange(c: Channel) {
    && (forall i :: i in c.status ==> 0 <= i < c.size)
    && (forall i :: i in c.disabledTime ==> 0 <= i < c.size)
    && (forall i :: i in c.disabledReason ==> 0 <= i < c.size)
  }

  // ----- compaction -----

  /** The indices below `n` outside `drop`, in order. */
  function Survivors(n: nat, drop: set<int>): (r: seq<int>)
    ensures |r| <= n
    ensures forall j :: 0 <= j < |r| ==> 0 <= r[j] < n && r[j] !in drop
  {
    if n == 0 then
      []
    else
      Survivors(n - 1, drop) + (if n - 1 in drop then [] else [n - 1])
  }

  function Pick<T>(xs: seq<T>, at: seq<int>): (r: seq<T>)
    requires forall j :: 0 <= j < |at| ==> 0 <= at[j] < |xs|
    ensures |r| == |at|
    ensures forall j :: 0 <= j < |at| ==> r[j] == xs[at[j]]
  {
    seq(|at|, j requires 0 <= j < |at| => xs[at[j]])
  }

  /** The entries of a map moved to the new positions of the surviving indices. */
  function Reindex<V>(m: map<int, V>, at: seq<int>): map<int, V> {
    map j | 0 <= j < |at| && at[j] in m :: m[at[j]]
  }

  /** The entries that differ from the default. */
  function Disabled(status: map<int, int>): map<int, int> {
    map i | i in status && status[i] != ENABLED :: status[i]
  }

  function OfDisabled<V>(m: map<int, V>, status: map<int, int>): map<int, V> {
    map i | i in m && StatusOf(status, i) != ENABLED :: m[i]
  }

  function AutoDisabled(n: nat, status: map<int, int>): set<int> {
    set i | 0 <= i < n && StatusOf(status, i) == AUTO_DISABLED
  }

  function EnabledBelow(n: int, status: map<int, int>): set<int> {
    set i | 0 <= i < n && StatusOf(status, i) == ENABLED
  }

  // ----- the actions -----

  /** Saving: an empty key column leaves the stored one, the size is recounted, and statuses beyond
      it are dropped. */
  function Saved(c: Channel, storedColumn: string): Channel {
    var column := if c.column != "" then c.column else storedColumn;
    var n := CountKeys(c.json, column);
    c.(column := column, size := n, status := map i | i in c.status && i < n :: c.status[i])
  }

  function DisableStep(c: Channel, index: int): (Channel, Outcome) {
    if index < 0 || index >= c.size then
      (c, OutOfRange)
    else
      (Saved(c.(status := c.status[index := MANUALLY_DISABLED]), c.column), Done)
  }

  function EnableStep(c: Channel, index: int): (Channel, Outcome) {
    if index < 0 || index >= c.size then
      (c, OutOfRange)
    else
      (Saved(c.(status := c.status - {index},
                disabledTime := c.disabledTime - {index},
                disabledReason := c.disabledReason - {index}), c.column), Done)
  }

  function EnableAllStep(c: Channel): Channel {
    Saved(c.(status := map[], disabledTime := map[], disabledReason := map[]), c.column)
  }

  function DisableAllStep(c: Channel): (Channel, Outcome) {
    var enabled := EnabledBelow(c.size, c.status);
    if enabled == {} then
      (c, NothingToDo)
    else
      (Saved(c.(status := c.status + map i | i in enabled :: MANUALLY_DISABLED), c.column), Done)
  }

  /** The surviving keys written as lines, the maps moved along, and saved. */
  function Compacted(c: Channel, left: seq<int>, times: map<int, int>, why: map<int, string>): Channel
    requires forall j :: 0 <= j < |left| ==> 0 <= left[j] < |Keys(c)|
  {
    Saved(Channel(c.json, Join(Pick(Keys(c), left), NEWLINE), |left|, Reindex(Disabled(c.status), left),
                  Reindex(times, left), Reindex(why, left)), c.column)
  }

  function DeleteKeyStep(c: Channel, index: int): (Channel, Outcome) {
    var keys := Keys(c);
    var left := Survivors(|keys|, {index});
    if index < 0 || index >= c.size then
      (c, OutOfRange)
    else if left == [] then
      (c, LastKey)
    else
      (Compacted(c, left, c.disabledTime, c.disabledReason), Done)
  }

  function DeleteDisabledStep(c: Channel): (Channel, Outcome) {
    var keys := Keys(c);
    var drop := AutoDisabled(|keys|, c.status);
    var left := Survivors(|keys|, drop);
    if drop == {} then
      (c, NothingToDo)
    else
      (Compacted(c, left, OfDisabled(c.disabledTime, c.status), OfDisabled(c.disabledReason, c.status)), Done)
  }

  // ----- the code -----

  class MultiKeyChannel {
    const json: ArrayReader
    var column: string
    var size: int
    var status: map<int, int>
    var disabledTime: map<int, int>
    var disabledReason: map<int, string>

    constructor (c: Channel)
      ensures Value() == c
    {
      json, column, size := c.json, c.column, c.size;
      status, disabledTime, disabledReason := c.status, c.disabledTime, c.disabledReason;
    }

    function Value(): Channel
      reads this
    {
      Channel(json, column, size, status, disabledTime, disabledReason)
    }

    method Save(storedColumn: string)
      modifies this
      ensures Value() == Saved(old(Value()), storedColumn)
      ensures column == (if old(column) == "" then storedColumn else old(column)) && size == CountKeys(json, column)
      ensures forall i :: i in status <==> i in old(status) && i < size
      ensures forall i :: i in status ==> status[i] == old(status)[i]
      ensures disabledTime == old(disabledTime) && disabledReason == old(disabledReason)
    {
      if column == "" {
        column := storedColumn;
      }
      size := CountKeys(json, column);
      status := map i | i in status && i < size :: status[i];
    }

    method DisableKey(index: int) returns (outcome: Outcome)
      modifies this
      ensures (Value(), outcome) == DisableStep(old(Value()), index)
    {
      if index < 0 || index >= size {
        return OutOfRange;
      }
      status := status[index := MANUALLY_DISABLED];
      Save(column);
      return Done;
    }

    method EnableKey(index: int) returns (outcome: Outcome)
      modifies this
      ensures (Value(), outcome) == EnableStep(old(Value()), index)
    {
      if index < 0 || index >= size {
        return OutOfRange;
      }
      status := status - {index};
      disabledTime := disabledTime - {index};
      disabledReason := disabledReason - {index};
      Save(column);
      return Done;
    }

    method EnableAllKeys() returns (enabledCount: nat)
      modifies this
      ensures Value() == EnableAllStep(old(Value()))
      ensures enabledCount == |old(status)|
    {
      enabledCount := |status|;
      status, disabledTime, disabledReason := map[], map[], map[];
      Save(column);
    }

    method DisableAllKeys() returns (outcome: Outcome, disabledCount: nat)
      modifies this
      ensures (Value(), outcome) == DisableAllStep(old(Value()))
      ensures disabledCount
           == |set i | 0 <= i < old(size) && (i in old(status) ==> old(status)[i] == 1)|
    {
      hide ReadKeys, CountKeys;
      var next := status;
      disabledCount := 0;
      var i := 0;
      ghost var enabled := EnabledBelow(size, status);
      NoneEnabledBelowZero(status);
      while i < size
        invariant Value() == old(Value())
        invariant i >= 0 && (size >= 0 ==> i <= size) && (size < 0 ==> i == 0)
        invariant forall j :: j in next <==> j in status || (j in enabled && j < i)
        invariant forall j :: j in next ==>
                    next[j] == if j in enabled && j < i then MANUALLY_DISABLED else status[j]
        invariant disabledCount == |EnabledBelow(i, status)|
      {
        EnabledStep(i, status);
        if StatusOf(next, i) == ENABLED {
          next := next[i := MANUALLY_DISABLED];
          disabledCount := disabledCount + 1;
        }
        i := i + 1;
      }
      if size < 0 {
        assert enabled == EnabledBelow(i, status);
      }
      if disabledCount == 0 {
        assert enabled == {} == set j | 0 <= j < size && (j in status ==> status[j] == 1);
        return NothingToDo, 0;
      }
      assert enabled == set j | 0 <= j < size && (j in status ==> status[j] == 1);
      assert next == status + map j | j in enabled :: MANUALLY_DISABLED;
      status := next;
      Save(column);
      return Done, disabledCount;
    }

    /** Compaction with a running new index; the channel changes only if a key is left. */
    method DeleteKey(index: int) returns (outcome: Outcome)
      modifies this
      ensures (Value(), outcome) == DeleteKeyStep(old(Value()), index)
    {
      hide Pick, Reindex, Join, ReadKeys, CountKeys, Saved, Survivors;
      if index < 0 || index >= size {
        return OutOfRange;
      }
      var keys := ReadKeys(json, column);
      var remaining: seq<string> := [];
      var newStatus: map<int, int> := map[];
      var newTime: map<int, int> := map[];
      var newReason: map<int, string> := map[];
      var newIndex := 0;
      ghost var left: seq<int> := [];
      NothingKept(keys, Disabled(status), disabledTime, disabledReason);
      SurvivorsStep(0, {index});
      for i := 0 to |keys|
        invariant Value() == old(Value())
        invariant left == Survivors(i, {index}) && newIndex == |left|
        invariant remaining == Pick(keys, left)
        invariant newStatus == Reindex(Disabled(status), left)
        invariant newTime == Reindex(disabledTime, left)
        invariant newReason == Reindex(disabledReason, left)
      {
        SurvivorsStep(i, {index});
        if i != index {
          CompactionStep(keys, Disabled(status), disabledTime, disabledReason, left, i);
          left := left + [i];
          remaining := remaining + [keys[i]];
          if i in status && status[i] != ENABLED {
            newStatus := newStatus[newIndex := status[i]];
          }
          if i in disabledTime {
            newTime := newTime[newIndex := disabledTime[i]];
          }
          if i in disabledReason {
            newReason := newReason[newIndex := disabledReason[i]];
          }
          newIndex := newIndex + 1;
        }
      }
      assert |remaining| == |left|;
      if |remaining| == 0 {
        return LastKey;
      }
      var stored := column;
      column := Join(remaining, NEWLINE);
      size := |remaining|;
      status, disabledTime, disabledReason := newStatus, newTime, newReason;
      Save(stored);
      return Done;
    }

    /** Compaction that drops every automatically disabled key. */
    method DeleteDisabledKeys() returns (outcome: Outcome, deletedCount: nat)
      modifies this
      ensures (Value(), outcome) == DeleteDisabledStep(old(Value()))
      ensures deletedCount == |AutoDisabled(|Keys(old(Value()))|, old(status))|
    {
      hide Pick, Reindex, Join, ReadKeys, CountKeys, Saved, Survivors;
      var keys := ReadKeys(json, column);
      var remaining: seq<string> := [];
      var newStatus: map<int, int> := map[];
      var newTime: map<int, int> := map[];
      var newReason: map<int, string> := map[];
      var newIndex := 0;
      deletedCount := 0;
      ghost var drop := AutoDisabled(|keys|, status);
      ghost var left: seq<int> := [];
      ghost var times, why := OfDisabled(disabledTime, status), OfDisabled(disabledReason, status);
      NothingKept(keys, Disabled(status), times, why);
      SurvivorsStep(0, drop);
      for i := 0 to |keys|
        invariant Value() == old(Value())
        invariant left == Survivors(i, drop) && newIndex == |left|
        invariant remaining == Pick(keys, left)
        invariant newStatus == Reindex(Disabled(status), left)
        invariant newTime == Reindex(times, left)
        invariant newReason == Reindex(why, left)
        invariant deletedCount == |AutoDisabled(i, status)|
      {
        var keyStatus := StatusOf(status, i);
        AutoDisabledStep(i, status);
        SurvivorsStep(i, drop);
        assert i in drop <==> keyStatus == AUTO_DISABLED;
        if keyStatus == AUTO_DISABLED {
          deletedCount := deletedCount + 1;
        } else {
          CompactionStep(keys, Disabled(status), times, why, left, i);
          left := left + [i];
          assert i in times <==> i in disabledTime && keyStatus != ENABLED;
          assert i in why <==> i in disabledReason && keyStatus != ENABLED;
          remaining := remaining + [keys[i]];
          if keyStatus != ENABLED {
            newStatus := newStatus[newIndex := keyStatus];
            if i in disabledTime {
              newTime := newTime[newIndex := disabledTime[i]];
            }
            if i in disabledReason {
              newReason := newReason[newIndex := disabledReason[i]];
            }
          }
          newIndex := newIndex + 1;
        }
      }
      if deletedCount == 0 {
        return NothingToDo, 0;
      }
      var stored := column;
      column := Join(remaining, NEWLINE);
      size := |remaining|;
      status, disabledTime, disabledReason := newStatus, newTime, newReason;
      Save(stored);
      return Done, deletedCount;
    }
  }

  lemma NoneEnabledBelowZero(status: map<int, int>)
    ensures forall n :: n <= 0 ==> EnabledBelow(n, status) == {}
  {
  }

  lemma EnabledStep(i: nat, status: map<int, int>)
    ensures |EnabledBelow(i + 1, status)| == |EnabledBelow(i, status)|
         + (if StatusOf(status, i) == ENABLED then 1 else 0)
  {
    if StatusOf(status, i) == ENABLED {
      assert EnabledBelow(i + 1, status) == EnabledBelow(i, status) + {i};
    } else {
      assert EnabledBelow(i + 1, status) == EnabledBelow(i, status);
    }
  }

  lemma AutoDisabledStep(i: nat, status: map<int, int>)
    ensures |AutoDisabled(i + 1, status)|
         == |AutoDisabled(i, status)| + (if StatusOf(status, i) == AUTO_DISABLED then 1 else 0)
  {
    if StatusOf(status, i) == AUTO_DISABLED {
      assert AutoDisabled(i + 1, status) == AutoDisabled(i, status) + {i};
    } else {
      assert AutoDisabled(i + 1, status) == AutoDisabled(i, status);
    }
  }

  lemma ReindexSnoc<V(!new)>(m: map<int, V>, at: seq<int>, i: int)
    ensures Reindex(m, at + [i]) == if i in m then Reindex(m, at)[|at| := m[i]] else Reindex(m, at)
  {
  }

  lemma PickSnoc<T>(xs: seq<T>, at: seq<int>, i: nat)
    requires i < |xs| && forall j :: 0 <= j < |at| ==> 0 <= at[j] < i
    ensures Pick(xs, at + [i]) == Pick(xs, at) + [xs[i]]
  {
  }

  lemma SurvivorsStep(i: nat, drop: set<int>)
    ensures Survivors(0, drop) == []
    ensures Survivors(i + 1, drop) == Survivors(i, drop) + (if i in drop then [] else [i])
  {
  }

  lemma NothingKept(keys: seq<string>, status: map<int, int>, times: map<int, int>, why: map<int, string>)
    ensures Pick(keys, []) == []
    ensures Reindex(status, []) == map[] && Reindex(times, []) == map[] && Reindex(why, []) == map[]
  {
  }

  lemma CompactionStep(keys: seq<string>, status: map<int, int>, times: map<int, int>, why: map<int, string>,
                       at: seq<int>, i: nat)
    requires i < |keys| && forall j :: 0 <= j < |at| ==> 0 <= at[j] < i
    ensures Pick(keys, at + [i]) == Pick(keys, at) + [keys[i]]
    ensures Reindex(status, at + [i]) ==
          if i in status then Reindex(status, at)[|at| := status[i]] else Reindex(status, at)
    ensures Reindex(times, at + [i]) == if i in times then Reindex(times, at)[|at| := times[i]] else Reindex(times, at)
    ensures Reindex(why, at + [i]) == if i in why then Reindex(why, at)[|at| := why[i]] else Reindex(why, at)
  {
    PickSnoc(keys, at, i);
    ReindexSnoc(status, at, i);
    ReindexSnoc(times, at, i);
    ReindexSnoc(why, at, i);
  }

  // ----- what the actions mean for the keys and their statuses -----

  /** Moving keys and statuses together keeps every survivor's status. */
  lemma CompactionKeepsEntries(keys: seq<string>, status: map<int, int>, left: seq<int>)
    requires forall j :: 0 <= j < |left| ==> 0 <= left[j] < |keys|
    ensures View(Pick(keys, left), Reindex(Disabled(status), left)) == Pick(View(keys, status), left)
  {
    var moved := Reindex(Disabled(status), left);
    forall j | 0 <= j < |left|
      ensures StatusOf(moved, j) == StatusOf(status, left[j])
    {
    }
  }

  // ----- which keys can be stored -----

  function KeysOf(view: seq<Entry>): (r: seq<string>)
    ensures |r| == |view| && forall i :: 0 <= i < |view| ==> r[i] == view[i].key
  {
    seq(|view|, i requires 0 <= i < |view| => view[i].key)
  }

  /** The keys can be written as lines: there are some, the first and the last are not blank, none has a
      line break, and the lines do not happen to be an array. */
  predicate Storable(json: ArrayReader, keys: seq<string>) {
    FirmEnds(keys) && SepFree(keys, NEWLINE) && !IsArray(json, Join(keys, NEWLINE))
  }

  /** Keys written as lines are read back if and only if they are storable. */
  lemma StorableIff(json: ArrayReader, keys: seq<string>)
    requires ReadsArrays(json) && keys != []
    ensures ReadKeys(json, Join(keys, NEWLINE)) == keys <==> Storable(json, keys)
  {
    hide Join, Split, Trim;
    var column := Join(keys, NEWLINE);
    JoinLength(keys, NEWLINE);
    TrimShortens(column, SPACES);
    if SepFree(keys, NEWLINE) {
      FieldsOfJoin(keys, NEWLINE);
    }
  }

  /** When the keys are read at all, saving counts them. */
  lemma CountIsKeys(json: ArrayReader, column: string)
    requires ReadKeys(json, column) != [] || column == ""
    ensures CountKeys(json, column) == |ReadKeys(json, column)|
  {
  }

  lemma CompactedStorable(c: Channel, left: seq<int>, times: map<int, int>, why: map<int, string>)
    requires ReadsArrays(c.json) && left != [] && forall j :: 0 <= j < |left| ==> 0 <= left[j] < |Keys(c)|
    requires Storable(c.json, Pick(Keys(c), left))
    ensures var next := Compacted(c, left, times, why);
            Entries(next) == Pick(Entries(c), left) && Consistent(next) && IndicesInRange(next)
  {
    hide Join, ReadKeys, CountKeys, Storable, Reindex, Pick, View, Disabled, ReadsArrays;
    var picked := Pick(Keys(c), left);
    StorableIff(c.json, picked);
    CompactionKeepsEntries(Keys(c), c.status, left);
    EmptyJoinIsBlank(picked, c.json);
    CountIsKeys(c.json, Join(picked, NEWLINE));
    ReindexBelow(Disabled(c.status), left);
    ReindexBelow(times, left);
    ReindexBelow(why, left);
  }

  lemma ReindexBelow<V(!new)>(m: map<int, V>, at: seq<int>)
    ensures forall i :: i in Reindex(m, at) ==> 0 <= i < |at|
    ensures var moved := Reindex(m, at);
            (map i | i in moved && i < |at| :: moved[i]) == moved
  {
  }

  lemma CompactedUnstorable(c: Channel, left: seq<int>, times: map<int, int>, why: map<int, string>)
    requires ReadsArrays(c.json)
    requires 0 < |left| < |Keys(c)| && forall j :: 0 <= j < |left| ==> 0 <= left[j] < |Keys(c)|
    requires !Storable(c.json, Pick(Keys(c), left))
    ensures Entries(Compacted(c, left, times, why)) != Pick(Entries(c), left)
  {
    hide Join, ReadKeys, CountKeys, Storable, Reindex;
    var picked := Pick(Keys(c), left);
    StorableIff(c.json, picked);
    PickedKeys(Keys(c), c.status, left);
    var next := Compacted(c, left, times, why);
    KeysOfView(Keys(next), next.status);
  }

  /** What a compaction that keeps some but not all keys leaves after saving: exactly the surviving keys
      and statuses, if and only if the surviving keys are storable. */
  lemma CompactedChannel(c: Channel, left: seq<int>, times: map<int, int>, why: map<int, string>)
    requires ReadsArrays(c.json)
    requires 0 < |left| < |Keys(c)| && forall j :: 0 <= j < |left| ==> 0 <= left[j] < |Keys(c)|
    ensures var next := Compacted(c, left, times, why);
            && next.json == c.json
            && (Entries(next) == Pick(Entries(c), left) <==> Storable(c.json, Pick(Keys(c), left)))
            && (Storable(c.json, Pick(Keys(c), left)) ==> Consistent(next) && IndicesInRange(next))
  {
    hide Join, ReadKeys, CountKeys, Storable, Reindex, Pick, Entries, Consistent;
    if Storable(c.json, Pick(Keys(c), left)) {
      CompactedStorable(c, left, times, why);
    } else {
      CompactedUnstorable(c, left, times, why);
    }
  }

  lemma KeysOfView(keys: seq<string>, status: map<int, int>)
    ensures KeysOf(View(keys, status)) == keys
  {
  }

  lemma EmptyJoinIsBlank(keys: seq<string>, json: ArrayReader)
    ensures Storable(json, keys) ==> Join(keys, NEWLINE) != ""
  {
    JoinLength(keys, NEWLINE);
  }

  function RemoveAt<T>(view: seq<T>, i: nat): seq<T>
    requires i < |view|
  {
    view[..i] + view[i + 1..]
  }

  lemma {:induction false} SurvivorsWithoutOne<T>(view: seq<T>, n: nat, i: nat)
    requires n <= |view| && i < |view|
    ensures Pick(view, Survivors(n, {i})) == if i < n then view[..i] + view[i + 1..n] else view[..n]
    ensures |Survivors(n, {i})| == if i < n then n - 1 else n
  {
    hide Pick, Survivors;
    if n == 0 {
      SurvivorsStep(0, {i});
    } else {
      var last := n - 1;
      SurvivorsWithoutOne(view, last, i);
      SurvivorsStep(last, {i});
      if i != last {
        PickSnoc(view, Survivors(last, {i}), last);
        SliceSnoc(view, if i < last then i + 1 else 0, last);
        if i < last {
          assert view[..i] + (view[i + 1..last] + [view[last]]) == (view[..i] + view[i + 1..last]) + [view[last]];
        }
      }
    }
  }

  lemma SliceSnoc<T>(view: seq<T>, lo: nat, n: nat)
    requires lo <= n < |view|
    ensures view[lo..n] + [view[n]] == view[lo..n + 1]
    ensures view[..n] + [view[n]] == view[..n + 1]
  {
  }

  lemma WithoutOneIsRemoveAt<T>(view: seq<T>, i: nat)
    requires i < |view|
    ensures Pick(view, Survivors(|view|, {i})) == RemoveAt(view, i)
    ensures |Survivors(|view|, {i})| == |view| - 1
  {
    SurvivorsWithoutOne(view, |view|, i);
    assert view[i + 1..|view|] == view[i + 1..];
  }

  lemma PickedKeys(keys: seq<string>, status: map<int, int>, left: seq<int>)
    requires forall j :: 0 <= j < |left| ==> 0 <= left[j] < |keys|
    ensures Pick(keys, left) == KeysOf(Pick(View(keys, status), left))
  {
  }

  /** Deleting a key takes out that key and keeps the others in order with their statuses, every index in
      the maps staying below the new size, if and only if the other keys are storable. The last key is
      never deleted. */
  lemma DeleteKeyRemovesExactlyOne(c: Channel, index: int)
    requires Consistent(c) && ReadsArrays(c.json)
    ensures var (next, outcome) := DeleteKeyStep(c, index);
            && (outcome == Done <==> 0 <= index < |Keys(c)| && |Keys(c)| > 1)
            && (outcome != Done ==> next == c)
            && next.json == c.json
            && (outcome == Done ==>
                  var others := RemoveAt(Entries(c), index);
                  && (Entries(next) == others <==> Storable(c.json, KeysOf(others)))
                  && (Storable(c.json, KeysOf(others)) ==> Consistent(next) && IndicesInRange(next)))
  {
    hide Join, ReadKeys, Saved, Storable, KeysOf, Pick, Reindex, Survivors, RemoveAt;
    var n := |Keys(c)|;
    if 0 <= index < n {
      WithoutOneIsRemoveAt(Entries(c), index);
      var left := Survivors(n, {index});
      if left != [] {
        CompactedChannel(c, left, c.disabledTime, c.disabledReason);
        PickedKeys(Keys(c), c.status, left);
      }
    }
  }

  /** The condition is needed: with a blank line before the last key, deleting the last key loses the
      blank one too. */
  lemma BlankLineIsLost(json: ArrayReader, status: map<int, int>)
    ensures var c := Channel(json, "a\n\nb", 3, status, map[], map[]);
            && Keys(c) == ["a", "", "b"] && Consistent(c) && Plain(Keys(c))
            && Keys(DeleteKeyStep(c, 2).0) == ["a"]
  {
    hide Fields, TrimSpace, Plain;
    BlankLineIsPlain();
    assert !("[" <= TrimSpace("a\n\nb")) && !("[" <= TrimSpace("a\n")) by {
      OpensBracketMeans("a\n\nb");
      OpensBracketMeans("a\n");
    }
    var all, rest := ["a", "", "b"], ["a", ""];
    assert all[1..] == ["", "b"] && all[1..][1..] == ["b"] && rest[1..] == [""];
    assert Join(all, NEWLINE) == "a\n\nb" && Join(rest, NEWLINE) == "a\n";
    FieldsOfJoin(all, NEWLINE);
    assert rest[..1] == ["a"];
    TrailingBlanksAreLost(rest, 1, NEWLINE);
    assert Survivors(3, {2}) == [0, 1];
    assert Pick(all, [0, 1]) == rest;
  }

  lemma BlankLineIsPlain()
    ensures Plain(["a", "", "b"])
  {
    assert !OpensBracket("a") && !OpensBracket("") && !OpensBracket("b");
  }

  /** The entries that are not automatically disabled, in order. */
  function Kept(view: seq<Entry>): seq<Entry> {
    if view == [] then
      []
    else
      var last := view[|view| - 1];
      Kept(view[..|view| - 1]) + (if last.status == AUTO_DISABLED then [] else [last])
  }

  lemma {:induction false} SurvivorsAreKept(keys: seq<string>, status: map<int, int>, n: nat, drop: set<int>)
    requires n <= |keys|
    requires forall i :: 0 <= i < n ==> (i in drop <==> StatusOf(status, i) == AUTO_DISABLED)
    ensures Pick(View(keys, status), Survivors(n, drop)) == Kept(View(keys, status)[..n])
  {
    hide Pick, Survivors;
    if n == 0 {
      SurvivorsStep(0, drop);
    } else {
      var view := View(keys, status);
      SurvivorsAreKept(keys, status, n - 1, drop);
      SurvivorsStep(n - 1, drop);
      assert view[..n][..n - 1] == view[..n - 1];
      if n - 1 !in drop {
        PickSnoc(view, Survivors(n - 1, drop), n - 1);
      }
    }
  }

  lemma {:induction false} KeptMembers(view: seq<Entry>)
    ensures forall e :: e in Kept(view) <==> e in view && e.status != AUTO_DISABLED
    ensures |Kept(view)| <= |view|
  {
    if view != [] {
      var n := |view| - 1;
      KeptMembers(view[..n]);
      InSnoc(view[..n], view[n]);
      assert view == view[..n] + [view[n]];
    }
  }

  lemma InSnoc(init: seq<Entry>, last: Entry)
    ensures forall e :: e in init + [last] <==> e in init || e == last
  {
  }

  lemma {:induction false} KeptAll(view: seq<Entry>)
    ensures (forall i :: 0 <= i < |view| ==> view[i].status != AUTO_DISABLED) ==> Kept(view) == view
    ensures |Kept(view)| <= |view|
    ensures |Kept(view)| == |view| ==> forall i :: 0 <= i < |view| ==> view[i].status != AUTO_DISABLED
  {
    if view != [] {
      var n := |view| - 1;
      KeptAll(view[..n]);
      assert view == view[..n] + [view[n]];
    }
  }

  /** Some key is automatically disabled, which is status 3. */
  ghost predicate HasDisabled(view: seq<Entry>) {
    exists i :: 0 <= i < |view| && view[i].status == 3
  }

  lemma DropIsDisabled(keys: seq<string>, status: map<int, int>)
    ensures AutoDisabled(|keys|, status) != {} <==> HasDisabled(View(keys, status))
  {
    if HasDisabled(View(keys, status)) {
      var i :| 0 <= i < |keys| && View(keys, status)[i].status == AUTO_DISABLED;
      assert i in AutoDisabled(|keys|, status);
    }
    if AutoDisabled(|keys|, status) != {} {
      var i :| i in AutoDisabled(|keys|, status);
      assert View(keys, status)[i].status == AUTO_DISABLED;
    }
  }

  /** Deleting the disabled keys removes exactly the automatically disabled ones and keeps the others in
      order with their statuses, every index staying below the new size, if and only if there is none to
      remove or the others are storable. When there is no other, every key stays, enabled again. */
  lemma DeleteDisabledRemovesExactlyAutoDisabled(c: Channel)
    requires Consistent(c) && ReadsArrays(c.json)
    ensures var (next, outcome) := DeleteDisabledStep(c);
            var view := Entries(c);
            && (outcome == NothingToDo <==> !HasDisabled(view))
            && (outcome == NothingToDo ==> next == c)
            && (Entries(next) == Kept(view) <==> !HasDisabled(view) || Storable(c.json, KeysOf(Kept(view))))
            && (HasDisabled(view) && Storable(c.json, KeysOf(Kept(view))) ==> Consistent(next) && IndicesInRange(next))
            && (Kept(view) == [] ==>
                  Keys(next) == Keys(c) && forall i :: 0 <= i < |Keys(c)| ==> StatusOf(next.status, i) == ENABLED)
  {
    hide Join, ReadKeys, Saved, Storable, KeysOf, Pick, Reindex, Survivors, Kept, AutoDisabled;
    var keys := Keys(c);
    var drop := AutoDisabled(|keys|, c.status);
    var left := Survivors(|keys|, drop);
    var view := Entries(c);
    DropIsDisabled(keys, c.status);
    KeptAll(view);
    if drop != {} {
      DropMeans(|keys|, c.status);
      SurvivorsAreKept(keys, c.status, |keys|, drop);
      assert view[..|keys|] == view;
      if left == [] {
        NothingLeft(c, OfDisabled(c.disabledTime, c.status), OfDisabled(c.disabledReason, c.status));
        NothingStorable(c.json);
      } else {
        CompactedChannel(c, left, OfDisabled(c.disabledTime, c.status), OfDisabled(c.disabledReason, c.status));
        PickedKeys(keys, c.status, left);
      }
    } else {
      NoEntryBelow(keys, c.status);
    }
  }

  lemma DropMeans(n: nat, status: map<int, int>)
    ensures forall i :: 0 <= i < n ==> (i in AutoDisabled(n, status) <==> StatusOf(status, i) == AUTO_DISABLED)
  {
  }

  lemma NoEntryBelow(keys: seq<string>, status: map<int, int>)
    ensures View(keys, status) == [] ==> keys == []
  {
  }

  lemma NothingStorable(json: ArrayReader)
    ensures !Storable(json, KeysOf([]))
  {
  }

  lemma NothingLeft(c: Channel, times: map<int, int>, why: map<int, string>)
    requires Keys(c) != []
    ensures var next := Compacted(c, [], times, why);
            Keys(next) == Keys(c) && next.status == map[]
  {
    assert Pick(Keys(c), []) == [] && Join([], NEWLINE) == "";
    assert Reindex(Disabled(c.status), []) == map[];
  }

  // ----- disabling times and reasons -----

  /** A key with everything recorded about it. */
  datatype Detail = Detail(key: string, status: int, time: Option<int>, reason: Option<string>)

  function Lookup<V>(m: map<int, V>, i: int): Option<V> {
    if i in m then Some(m[i]) else None
  }

  function DetailView(keys: seq<string>, status: map<int, int>, times: map<int, int>, why: map<int, string>)
      : (r: seq<Detail>)
    ensures |r| == |keys|
    ensures forall i :: 0 <= i < |keys| ==>
              r[i] == Detail(keys[i], StatusOf(status, i), Lookup(times, i), Lookup(why, i))
  {
    seq(|keys|, i requires 0 <= i < |keys| =>
      Detail(keys[i], StatusOf(status, i), Lookup(times, i), Lookup(why, i)))
  }

  function Details(c: Channel): seq<Detail> {
    DetailView(Keys(c), c.status, c.disabledTime, c.disabledReason)
  }

  lemma ReindexedDetails(keys: seq<string>, status: map<int, int>, times: map<int, int>, why: map<int, string>,
                         left: seq<int>)
    requires forall j :: 0 <= j < |left| ==> 0 <= left[j] < |keys|
    ensures DetailView(Pick(keys, left), Reindex(Disabled(status), left), Reindex(times, left), Reindex(why, left))
         == Pick(DetailView(keys, status, times, why), left)
  {
    forall j | 0 <= j < |left|
      ensures StatusOf(Reindex(Disabled(status), left), j) == StatusOf(status, left[j])
    {
    }
  }

  lemma CompactedDetails(c: Channel, left: seq<int>, times: map<int, int>, why: map<int, string>)
    requires ReadsArrays(c.json) && left != [] && forall j :: 0 <= j < |left| ==> 0 <= left[j] < |Keys(c)|
    requires Storable(c.json, Pick(Keys(c), left))
    ensures Details(Compacted(c, left, times, why)) == Pick(DetailView(Keys(c), c.status, times, why), left)
  {
    hide Join, ReadKeys, CountKeys, Storable, Reindex, Pick, DetailView, Disabled, ReadsArrays;
    var picked := Pick(Keys(c), left);
    StorableIff(c.json, picked);
    ReindexedDetails(Keys(c), c.status, times, why, left);
    EmptyJoinIsBlank(picked, c.json);
    CountIsKeys(c.json, Join(picked, NEWLINE));
    ReindexBelow(Disabled(c.status), left);
  }

  function EntriesOf(view: seq<Detail>): (r: seq<Entry>)
    ensures |r| == |view| && forall i :: 0 <= i < |view| ==> r[i] == Entry(view[i].key, view[i].status)
  {
    seq(|view|, i requires 0 <= i < |view| => Entry(view[i].key, view[i].status))
  }

  lemma EntriesOfDetails(c: Channel)
    ensures EntriesOf(Details(c)) == Entries(c)
  {
    hide ReadKeys;
  }

  lemma EntriesWithoutOne(view: seq<Detail>, i: nat)
    requires i < |view|
    ensures EntriesOf(RemoveAt(view, i)) == RemoveAt(EntriesOf(view), i)
  {
  }

  /** Deleting a key keeps the disabling time and the reason of every other key if and only if the others
      are storable. */
  lemma DeleteKeyKeepsDetails(c: Channel, index: int)
    requires Consistent(c) && ReadsArrays(c.json) && 0 <= index < |Keys(c)| && |Keys(c)| > 1
    ensures Details(DeleteKeyStep(c, index).0) == RemoveAt(Details(c), index)
       <==> Storable(c.json, KeysOf(RemoveAt(Entries(c), index)))
  {
    hide Join, ReadKeys, Storable, KeysOf, Pick, Compacted, Survivors, RemoveAt, DetailView, EntriesOf;
    var left := Survivors(|Keys(c)|, {index});
    WithoutOneIsRemoveAt(Entries(c), index);
    WithoutOneIsRemoveAt(Details(c), index);
    PickedKeys(Keys(c), c.status, left);
    if Storable(c.json, KeysOf(RemoveAt(Entries(c), index))) {
      CompactedDetails(c, left, c.disabledTime, c.disabledReason);
    } else {
      DeleteKeyRemovesExactlyOne(c, index);
      EntriesOfDetails(c);
      EntriesOfDetails(DeleteKeyStep(c, index).0);
      EntriesWithoutOne(Details(c), index);
    }
  }

  /** What is kept of a key that is not deleted: an enabled one loses the time and the reason of an
      earlier disabling. */
  function Cleaned(d: Detail): Detail {
    if d.status == ENABLED then d.(time := None, reason := None) else d
  }

  function KeptDetails(view: seq<Detail>): seq<Detail> {
    if view == [] then
      []
    else
      var last := view[|view| - 1];
      KeptDetails(view[..|view| - 1]) + (if last.status == AUTO_DISABLED then [] else [Cleaned(last)])
  }

  lemma {:induction false} SurvivorsKeepDetails(view: seq<Detail>, cleaned: seq<Detail>, n: nat, drop: set<int>)
    requires n <= |view| == |cleaned| && forall i :: 0 <= i < n ==> cleaned[i] == Cleaned(view[i])
    requires forall i :: 0 <= i < n ==> (i in drop <==> view[i].status == AUTO_DISABLED)
    ensures Pick(cleaned, Survivors(n, drop)) == KeptDetails(view[..n])
  {
    hide Pick, Survivors;
    if n == 0 {
      SurvivorsStep(0, drop);
    } else {
      SurvivorsKeepDetails(view, cleaned, n - 1, drop);
      SurvivorsStep(n - 1, drop);
      assert view[..n][..n - 1] == view[..n - 1];
      if n - 1 !in drop {
        PickSnoc(cleaned, Survivors(n - 1, drop), n - 1);
      }
    }
  }

  lemma CleanedView(keys: seq<string>, status: map<int, int>, times: map<int, int>, why: map<int, string>)
    ensures var view := DetailView(keys, status, times, why);
            var cleaned := DetailView(keys, status, OfDisabled(times, status), OfDisabled(why, status));
            forall i :: 0 <= i < |keys| ==> cleaned[i] == Cleaned(view[i])
  {
  }

  lemma {:induction false} KeptEntries(view: seq<Detail>)
    ensures EntriesOf(KeptDetails(view)) == Kept(EntriesOf(view))
  {
    if view == [] {
      assert EntriesOf(view) == [];
    } else {
      var n := |view| - 1;
      KeptEntries(view[..n]);
      assert EntriesOf(view)[..n] == EntriesOf(view[..n]);
      EntriesSnoc(KeptDetails(view[..n]), Cleaned(view[n]));
    }
  }

  lemma EntriesSnoc(view: seq<Detail>, d: Detail)
    ensures EntriesOf(view + [d]) == EntriesOf(view) + [Entry(d.key, d.status)]
  {
  }

  lemma StorableSurvivors(c: Channel, drop: set<int>)
    requires HasDisabled(Entries(c)) && drop == AutoDisabled(|Keys(c)|, c.status)
    requires Storable(c.json, KeysOf(Kept(Entries(c))))
    ensures var left := Survivors(|Keys(c)|, drop);
            drop != {} && left != [] && Storable(c.json, Pick(Keys(c), left))
  {
    hide ReadKeys, Storable, KeysOf, Pick, Survivors, Kept, AutoDisabled, HasDisabled;
    var keys := Keys(c);
    var left := Survivors(|keys|, drop);
    DropIsDisabled(keys, c.status);
    DropMeans(|keys|, c.status);
    SurvivorsAreKept(keys, c.status, |keys|, drop);
    assert Entries(c)[..|keys|] == Entries(c);
    PickedKeys(keys, c.status, left);
    if left == [] {
      assert Pick(Entries(c), left) == [];
      NothingStorable(c.json);
    }
  }

  /** Deleting the disabled keys keeps the disabling time and the reason of every survivor that is not
      enabled if and only if the survivors are storable. */
  lemma DeleteDisabledKeepsDetails(c: Channel)
    requires Consistent(c) && ReadsArrays(c.json) && HasDisabled(Entries(c))
    ensures Details(DeleteDisabledStep(c).0) == KeptDetails(Details(c))
       <==> Storable(c.json, KeysOf(Kept(Entries(c))))
  {
    hide Join, ReadKeys, Storable, KeysOf, Pick, Compacted, Survivors, Kept, AutoDisabled, DetailView, View, OfDisabled,
         HasDisabled, EntriesOf, KeptDetails;
    if Storable(c.json, KeysOf(Kept(Entries(c)))) {
      var keys, times, why := Keys(c), OfDisabled(c.disabledTime, c.status), OfDisabled(c.disabledReason, c.status);
      var drop := AutoDisabled(|keys|, c.status);
      StorableSurvivors(c, drop);
      CompactedDetails(c, Survivors(|keys|, drop), times, why);
      CleanedView(keys, c.status, c.disabledTime, c.disabledReason);
      DropMeans(|keys|, c.status);
      SurvivorsKeepDetails(Details(c), DetailView(keys, c.status, times, why), |keys|, drop);
      assert Details(c)[..|keys|] == Details(c);
    } else {
      DeleteDisabledRemovesExactlyAutoDisabled(c);
      EntriesOfDetails(c);
      EntriesOfDetails(DeleteDisabledStep(c).0);
      KeptEntries(Details(c));
    }
  }

  // ----- deleting one by one -----

  /** Calls the deletion of single keys on every automatically disabled index below `top`, from the
      highest down. */
  function DeleteFromTop(c: Channel, top: nat): Channel
    decreases top
  {
    if top == 0 then
      c
    else
      var next := if top - 1 < |Keys(c)| && StatusOf(c.status, top - 1) == AUTO_DISABLED
                  then DeleteKeyStep(c, top - 1).0 else c;
      DeleteFromTop(next, top - 1)
  }

  /** Keys as they are entered line by line: without line breaks, and none that opens a bracket. */
  predicate Plain(keys: seq<string>) {
    SepFree(keys, NEWLINE) && forall k :: k in keys ==> !OpensBracket(k)
  }

  /** Plain keys are storable exactly if neither end is blank. */
  lemma PlainStorable(json: ArrayReader, keys: seq<string>)
    requires Plain(keys)
    ensures !IsArray(json, Join(keys, NEWLINE))
    ensures Storable(json, keys) <==> FirmEnds(keys)
  {
    hide TrimSpace;
    OpensBracketOfJoin(keys, NEWLINE);
    OpensBracketMeans(Join(keys, NEWLINE));
  }

  /** The keys below `top` that stay, and all keys from `top` on. */
  function KeptBelow(view: seq<Entry>, top: nat): seq<Entry> {
    if top <= |view| then Kept(view[..top]) + view[top..] else Kept(view)
  }

  lemma KeptBelowStep(view: seq<Entry>, i: nat)
    requires i < |view|
    ensures KeptBelow(view, i + 1)
         == if view[i].status == AUTO_DISABLED then KeptBelow(RemoveAt(view, i), i) else KeptBelow(view, i)
  {
    assert view[..i + 1][..i] == view[..i];
    if view[i].status == AUTO_DISABLED {
      var next := RemoveAt(view, i);
      assert next[..i] == view[..i] && next[i..] == view[i + 1..];
    } else {
      KeptAppend(view[..i], view[i], view[i + 1..]);
      assert view[i..] == [view[i]] + view[i + 1..];
    }
  }

  lemma KeptAppend(init: seq<Entry>, e: Entry, rest: seq<Entry>)
    ensures (Kept(init) + [e]) + rest == Kept(init) + ([e] + rest)
  {
  }

  lemma KeptBelowEnds(view: seq<Entry>, top: nat)
    ensures KeptBelow(view, 0) == view
    ensures top >= |view| ==> KeptBelow(view, top) == Kept(view)
  {
    assert view[..0] == [] && view[0..] == view && view[..|view|] == view && view[|view|..] == [];
  }

  /** If the last entry kept is not blank, blank entries at the end were not kept. */
  lemma {:induction false} KeptTrailing(view: seq<Entry>, m: nat)
    requires m <= |view| && (forall i :: m <= i < |view| ==> view[i].key == "")
    requires Kept(view) != [] && Kept(view)[|Kept(view)| - 1].key != ""
    ensures Kept(view) == Kept(view[..m])
  {
    var n := |view| - 1;
    if m == |view| {
      assert view[..m] == view;
    } else {
      KeptTrailing(view[..n], m);
      assert view[..n][..m] == view[..m];
    }
  }

  function LastFirm(keys: seq<string>): (m: nat)
    requires keys != [] && keys[0] != ""
    ensures 1 <= m <= |keys| && keys[m - 1] != "" && forall i :: m <= i < |keys| ==> keys[i] == ""
  {
    if keys[|keys| - 1] != "" then |keys| else LastFirm(keys[..|keys| - 1])
  }

  lemma {:induction false} PlainPart(keys: seq<string>, part: seq<string>)
    requires Plain(keys) && forall k :: k in part ==> k in keys
    ensures Plain(part)
  {
  }

  lemma RemoveAtMembers(view: seq<Entry>, i: nat)
    requires i < |view|
    ensures |RemoveAt(view, i)| == |view| - 1
    ensures forall k :: k in KeysOf(RemoveAt(view, i)) ==> k in KeysOf(view)
    ensures forall j :: 0 <= j < |view| && j != i ==> KeysOf(view)[j] in KeysOf(RemoveAt(view, i))
  {
    var others := RemoveAt(view, i);
    forall j | 0 <= j < |others|
      ensures KeysOf(others)[j] in KeysOf(view)
    {
      assert KeysOf(others)[j] == KeysOf(view)[if j < i then j else j + 1];
    }
    forall j | 0 <= j < |view| && j != i
      ensures KeysOf(view)[j] in KeysOf(others)
    {
      assert KeysOf(others)[if j < i then j else j - 1] == KeysOf(view)[j];
    }
  }

  /** What is known of the channel while keys are deleted one by one. */
  ghost predicate Lines(c: Channel) {
    Consistent(c) && ReadsArrays(c.json) && Plain(Keys(c)) && FirmEnds(Keys(c))
  }

  /** What one deletion among several plain keys writes. */
  lemma DeletionWrites(c: Channel, i: nat)
    requires Lines(c) && i < |Keys(c)| && |Keys(c)| > 1
    ensures var next := DeleteKeyStep(c, i).0;
            var others := RemoveAt(Entries(c), i);
            && next.json == c.json && next.column == Join(KeysOf(others), NEWLINE) != ""
            && next.size == CountKeys(c.json, next.column)
            && forall j :: 0 <= j < next.size && j < |others| ==> StatusOf(next.status, j) == others[j].status
  {
    hide Join, ReadKeys, CountKeys, KeysOf, Pick, Reindex, Survivors, RemoveAt, Plain, Disabled, ReadsArrays, View;
    var n, view := |Keys(c)|, Entries(c);
    var left := Survivors(n, {i});
    WithoutOneIsRemoveAt(view, i);
    PickedKeys(Keys(c), c.status, left);
    CompactionKeepsEntries(Keys(c), c.status, left);
    KeysOfView(Keys(c), c.status);
    RemoveAtMembers(view, i);
    var firm := if i == 0 then n - 1 else 0;
    var others := RemoveAt(view, i);
    var at :| 0 <= at < |KeysOf(others)| && KeysOf(others)[at] == Keys(c)[firm];
    JoinContains(KeysOf(others), NEWLINE, at, Keys(c)[firm][0]);
  }

  /** Deleting a key leaves plain keys with firm ends, whatever is lost. */
  lemma DeletionKeepsLines(c: Channel, i: nat)
    requires Lines(c) && i < |Keys(c)| && |Keys(c)| > 1
    ensures Lines(DeleteKeyStep(c, i).0)
  {
    hide Join, DeleteKeyStep, Fields, RemoveAt, Trim, IsArray, KeysOf;
    var next := DeleteKeyStep(c, i).0;
    var view, n := Entries(c), |Keys(c)|;
    var others := KeysOf(RemoveAt(view, i));
    DeletionWrites(c, i);
    KeysOfView(Keys(c), c.status);
    RemoveAtMembers(view, i);
    PlainPart(Keys(c), others);
    PlainStorable(c.json, others);
    FieldsAreParts(others, NEWLINE);
    PlainPart(others, Fields(next.column, NEWLINE));
    FieldsHaveFirmEnds(next.column, NEWLINE);
    var firm := Keys(c)[if i == 0 then n - 1 else 0];
    assert KeysOf(view)[if i == 0 then n - 1 else 0] == firm;
    var at :| 0 <= at < |others| && others[at] == firm;
    assert firm in Keys(c) && firm[0] in firm;
    JoinContains(others, NEWLINE, at, firm[0]);
    TrimKeeps(next.column, {NEWLINE}, firm[0]);
    CountIsKeys(c.json, next.column);
  }

  /** Deleting the last of several keys also loses the blank keys that are then at the end. */
  lemma DeletionOfLast(c: Channel)
    requires Lines(c) && |Keys(c)| > 1
    ensures var i := |Keys(c)| - 1;
            Entries(DeleteKeyStep(c, i).0) == Entries(c)[..LastFirm(Keys(c)[..i])]
  {
    hide Join, DeleteKeyStep, LastFirm, Lines, Plain, ReadKeys, CountKeys, RemoveAt,
         Entries, KeysOf, Consistent, ReadsArrays, FirmEnds;
    LinesMean(c);
    var i, view := |Keys(c)| - 1, Entries(c);
    var init := Keys(c)[..i];
    var m := LastFirm(init);
    DeletionWrites(c, i);
    WithoutLast(view);
    KeysOfPrefix(view, i);
    var next := DeleteKeyStep(c, i).0;
    PlainPart(Keys(c), init);
    ReadAfterLast(c.json, init, m);
    FirmPrefix(init, m);
    assert init[..m] == Keys(c)[..m];
    EntriesArePrefix(next, view, m);
  }

  lemma ReadAfterLast(json: ArrayReader, init: seq<string>, m: nat)
    requires Plain(init) && init != [] && init[0] != "" && m == LastFirm(init)
    ensures Join(init, NEWLINE) != "" && ReadKeys(json, Join(init, NEWLINE)) == init[..m]
    ensures CountKeys(json, Join(init, NEWLINE)) == m
  {
    hide Join, Fields, IsArray, LastFirm;
    FirmPrefix(init, m);
    PlainStorable(json, init);
    TrailingBlanksAreLost(init, m, NEWLINE);
    CountIsKeys(json, Join(init, NEWLINE));
  }

  lemma EntriesArePrefix(c: Channel, view: seq<Entry>, m: nat)
    requires m <= |view| && Keys(c) == KeysOf(view)[..m]
    requires forall j :: 0 <= j < m ==> StatusOf(c.status, j) == view[j].status
    ensures Entries(c) == view[..m]
  {
    hide ReadKeys;
  }

  lemma WithoutLast(view: seq<Entry>)
    requires view != []
    ensures RemoveAt(view, |view| - 1) == view[..|view| - 1]
  {
  }

  lemma KeysOfPrefix(view: seq<Entry>, i: nat)
    requires i <= |view|
    ensures KeysOf(view[..i]) == KeysOf(view)[..i]
  {
  }

  lemma FirmPrefix(keys: seq<string>, m: nat)
    requires 1 <= m <= |keys| && keys[0] != "" && keys[m - 1] != ""
    ensures FirmEnds(keys[..m])
  {
  }

  lemma DeleteFromTopStep(c: Channel, top: nat)
    requires top > 0
    ensures DeleteFromTop(c, top)
         == DeleteFromTop(if top - 1 < |Entries(c)| && Entries(c)[top - 1].status == AUTO_DISABLED
                          then DeleteKeyStep(c, top - 1).0 else c, top - 1)
    ensures DeleteFromTop(c, 0) == c
  {
    hide DeleteKeyStep, ReadKeys;
  }

  /** If the survivors have firm ends, deleting one by one from the highest index down leaves exactly
      them, although blank keys can be lost on the way. */
  lemma {:induction false} DeleteFromTopKeeps(c: Channel, top: nat)
    requires Lines(c) && FirmEnds(KeysOf(KeptBelow(Entries(c), top)))
    ensures Entries(DeleteFromTop(c, top)) == KeptBelow(Entries(c), top)
    decreases top
  {
    hide DeleteKeyStep, DeleteFromTop, Entries, Lines, KeptBelow, RemoveAt, KeysOf, FirmEnds;
    var view := Entries(c);
    if top > 0 {
      DeleteFromTopStep(c, top);
    } else {
      DeleteFromTopStep(c, 1);
    }
    if top == 0 {
      KeptBelowEnds(view, 0);
    } else if top > |view| {
      KeptBelowEnds(view, top);
      KeptBelowEnds(view, top - 1);
      DeleteFromTopKeeps(c, top - 1);
    } else {
      var i := top - 1;
      KeptBelowStep(view, i);
      if view[i].status == AUTO_DISABLED {
        DeleteOneOnTheWay(c, i);
        DeleteFromTopKeeps(DeleteKeyStep(c, i).0, i);
      } else {
        DeleteFromTopKeeps(c, i);
      }
    }
  }

  lemma OnlyKeyGoes(view: seq<Entry>, i: nat)
    requires |view| == 1 && i == 0
    ensures KeptBelow(RemoveAt(view, i), i) == [] && !FirmEnds(KeysOf([]))
  {
    assert RemoveAt(view, 0) == [];
  }

  lemma DeleteOneOnTheWay(c: Channel, i: nat)
    requires Lines(c) && i < |Entries(c)| && Entries(c)[i].status == AUTO_DISABLED
    requires FirmEnds(KeysOf(KeptBelow(RemoveAt(Entries(c), i), i)))
    ensures Lines(DeleteKeyStep(c, i).0)
    ensures KeptBelow(Entries(DeleteKeyStep(c, i).0), i) == KeptBelow(RemoveAt(Entries(c), i), i)
  {
    hide DeleteKeyStep, Entries, Lines, KeptBelow, RemoveAt, KeysOf, FirmEnds;
    LinesMean(c);
    if |Entries(c)| == 1 {
      OnlyKeyGoes(Entries(c), i);
    }
    DeletionKeepsLines(c, i);
    if i < |Entries(c)| - 1 {
      DeleteInner(c, i);
    } else {
      DeletionOfLast(c);
      BlanksWereDropped(Entries(c), Keys(c), LastFirm(Keys(c)[..i]));
    }
  }

  lemma LinesMean(c: Channel)
    requires Lines(c)
    ensures |Entries(c)| == |Keys(c)| > 0 && Keys(c)[0] != "" && KeysOf(Entries(c)) == Keys(c) && FirmEnds(Keys(c))
    ensures Plain(Keys(c)) && Consistent(c) && ReadsArrays(c.json)
  {
    KeysOfView(Keys(c), c.status);
  }

  lemma DeleteInner(c: Channel, i: nat)
    requires Lines(c) && i < |Entries(c)| - 1
    requires FirmEnds(KeysOf(KeptBelow(RemoveAt(Entries(c), i), i)))
    ensures Entries(DeleteKeyStep(c, i).0) == RemoveAt(Entries(c), i)
  {
    hide DeleteKeyStep, Entries, Lines, KeptBelow, RemoveAt, KeysOf, FirmEnds, Plain, Storable, Consistent;
    var view := Entries(c);
    LinesMean(c);
    FirmWithoutInner(view, i);
    RemoveAtMembers(view, i);
    PlainPart(Keys(c), KeysOf(RemoveAt(view, i)));
    PlainStorable(c.json, KeysOf(RemoveAt(view, i)));
    DeleteKeyRemovesExactlyOne(c, i);
  }

  /** Without a key other than the last one, the ends are firm: the first key is, unless it was the one
      taken out, and then the list that follows is what is kept. */
  lemma FirmWithoutInner(view: seq<Entry>, i: nat)
    requires i < |view| - 1 && FirmEnds(KeysOf(view))
    requires FirmEnds(KeysOf(KeptBelow(RemoveAt(view, i), i)))
    ensures FirmEnds(KeysOf(RemoveAt(view, i)))
  {
    var others := RemoveAt(view, i);
    if i == 0 {
      KeptBelowEnds(others, 0);
    } else {
      assert others[0] == view[0];
    }
    assert others[|others| - 1] == view[|view| - 1];
  }

  lemma BlanksWereDropped(view: seq<Entry>, keys: seq<string>, m: nat)
    requires |view| > 1 && KeysOf(view) == keys && keys[0] != ""
    requires m == LastFirm(keys[..|view| - 1])
    requires FirmEnds(KeysOf(KeptBelow(RemoveAt(view, |view| - 1), |view| - 1)))
    ensures KeptBelow(view[..m], |view| - 1) == KeptBelow(RemoveAt(view, |view| - 1), |view| - 1)
  {
    hide LastFirm, Kept, KeptBelow, RemoveAt, KeysOf;
    var i := |view| - 1;
    var init := view[..i];
    WithoutLast(view);
    KeptBelowEnds(init, i);
    KeptBelowEnds(view[..m], i);
    BlanksAfter(view, keys, i, m);
    LastKeptIsFirm(init);
    KeptTrailing(init, m);
    assert init[..m] == view[..m];
  }

  lemma BlanksAfter(view: seq<Entry>, keys: seq<string>, i: nat, m: nat)
    requires i < |view| && KeysOf(view) == keys && m <= i && forall j :: m <= j < i ==> keys[..i][j] == ""
    ensures forall j :: m <= j < i ==> view[..i][j].key == ""
  {
    forall j | m <= j < i
      ensures view[..i][j].key == ""
    {
      assert keys[..i][j] == keys[j] == view[j].key;
    }
  }

  lemma LastKeptIsFirm(view: seq<Entry>)
    requires FirmEnds(KeysOf(Kept(view)))
    ensures Kept(view) != [] && Kept(view)[|Kept(view)| - 1].key != ""
  {
    hide Kept;
  }

  /** Deleting one by one keeps plain keys with firm ends in any case. */
  lemma {:induction false} DeleteFromTopKeepsLines(c: Channel, top: nat)
    requires Lines(c)
    ensures Lines(DeleteFromTop(c, top))
    decreases top
  {
    hide DeleteKeyStep, ReadKeys, Plain;
    if top > 0 {
      var i := top - 1;
      if i < |Keys(c)| && StatusOf(c.status, i) == AUTO_DISABLED {
        DeleteOrKeep(c, i);
        DeleteFromTopKeepsLines(DeleteKeyStep(c, i).0, i);
      } else {
        DeleteFromTopKeepsLines(c, i);
      }
    }
  }

  lemma DeleteOrKeep(c: Channel, i: nat)
    requires Lines(c) && i < |Keys(c)|
    ensures Lines(DeleteKeyStep(c, i).0)
  {
    hide DeleteKeyStep, ReadKeys, Plain;
    if |Keys(c)| > 1 {
      DeletionKeepsLines(c, i);
    } else {
      DeleteKeyRemovesExactlyOne(c, i);
    }
  }

  /** Deleting the disabled keys in one pass, and deleting them one by one from the highest index down:
      among plain keys either leaves exactly the other keys with their statuses if and only if there is
      none to delete or the others have firm ends; so then both leave the same. */
  lemma BulkDeletionIsRepeatedDeletion(c: Channel)
    requires Consistent(c) && ReadsArrays(c.json) && Plain(Keys(c))
    ensures var survivors := Kept(Entries(c));
            var bulk, repeated := DeleteDisabledStep(c).0, DeleteFromTop(c, |Keys(c)|);
            var exact := !HasDisabled(Entries(c)) || FirmEnds(KeysOf(survivors));
            && (Entries(bulk) == survivors <==> exact)
            && (Entries(repeated) == survivors <==> exact)
            && (exact ==> Entries(bulk) == Entries(repeated))
  {
    hide DeleteDisabledStep, DeleteFromTop, ReadKeys, KeptBelow, Kept, KeysOf, Plain, Storable, HasDisabled;
    var view := Entries(c);
    KeysOfView(Keys(c), c.status);
    DeleteDisabledRemovesExactlyAutoDisabled(c);
    KeptIsPlain(view);
    PlainStorable(c.json, KeysOf(Kept(view)));
    if FirmEnds(Keys(c)) {
      RepeatedDeletionIsExactIff(c);
    } else {
      KeysHaveFirmEnds(c);
      FewKeysStay(c);
    }
  }

  lemma RepeatedDeletionIsExactIff(c: Channel)
    requires Lines(c)
    ensures Entries(DeleteFromTop(c, |Keys(c)|)) == Kept(Entries(c))
       <==> !HasDisabled(Entries(c)) || FirmEnds(KeysOf(Kept(Entries(c))))
  {
    hide DeleteFromTop, ReadKeys, KeptBelow, Kept, KeysOf, Plain;
    var view := Entries(c);
    KeysOfView(Keys(c), c.status);
    KeptBelowEnds(view, |view|);
    KeptAll(view);
    if FirmEnds(KeysOf(Kept(view))) {
      DeleteFromTopKeeps(c, |view|);
    }
    DeleteFromTopKeepsLines(c, |view|);
    var repeated := DeleteFromTop(c, |view|);
    KeysOfView(Keys(repeated), repeated.status);
  }

  /** The keys of any column have firm ends, unless there is none or a single blank one. */
  lemma KeysHaveFirmEnds(c: Channel)
    requires ReadsArrays(c.json)
    ensures Keys(c) == [] || Keys(c) == [""] || FirmEnds(Keys(c))
  {
    hide Trim, Split;
    if c.column != "" && IsArray(c.json, c.column) {
      var parts := Keys(c);
      assert forall i :: 0 <= i < |parts| ==> parts[i] in parts;
    } else if c.column != "" {
      FieldsHaveFirmEnds(c.column, NEWLINE);
    }
  }

  lemma FewKeysStay(c: Channel)
    requires Consistent(c) && ReadsArrays(c.json) && |Keys(c)| <= 1
    ensures DeleteFromTop(c, |Keys(c)|) == c
    ensures Entries(c) == Kept(Entries(c)) <==> !HasDisabled(Entries(c))
    ensures HasDisabled(Entries(c)) ==> Kept(Entries(c)) == []
  {
    hide DeleteKeyStep, ReadKeys;
    KeptAll(Entries(c));
    if |Keys(c)| == 1 {
      DeleteKeyRemovesExactlyOne(c, 0);
      assert DeleteFromTop(c, 0) == c;
      assert Entries(c)[..0] == [];
    }
  }

  lemma KeptIsPlain(view: seq<Entry>)
    requires Plain(KeysOf(view))
    ensures Plain(KeysOf(Kept(view)))
  {
    hide Kept;
    KeptMembers(view);
    forall k | k in KeysOf(Kept(view))
      ensures k in KeysOf(view)
    {
      var i :| 0 <= i < |Kept(view)| && KeysOf(Kept(view))[i] == k;
      assert Kept(view)[i] in Kept(view);
      var j :| 0 <= j < |view| && view[j] == Kept(view)[i];
      assert KeysOf(view)[j] == k;
    }
    PlainPart(KeysOf(view), KeysOf(Kept(view)));
  }

  // ----- deleting one by one keys that are not plain -----

  /** Each time a single deletion rewrites the column, the keys it leaves are storable. */
  ghost predicate StorableOnTheWay(c: Channel, top: nat)
    decreases top
  {
    if top == 0 then
      true
    else if top - 1 < |Keys(c)| && Entries(c)[top - 1].status == AUTO_DISABLED then
      && Storable(c.json, KeysOf(RemoveAt(Entries(c), top - 1)))
      && StorableOnTheWay(DeleteKeyStep(c, top - 1).0, top - 1)
    else
      StorableOnTheWay(c, top - 1)
  }

  lemma {:induction false} DeleteFromTopStores(c: Channel, top: nat)
    requires Consistent(c) && ReadsArrays(c.json) && StorableOnTheWay(c, top)
    ensures Entries(DeleteFromTop(c, top)) == KeptBelow(Entries(c), top)
    ensures DeleteFromTop(c, top) == c || Storable(c.json, KeysOf(Entries(DeleteFromTop(c, top))))
    decreases top
  {
    hide DeleteKeyStep, ReadKeys, KeptBelow, RemoveAt, KeysOf, Storable, ReadsArrays;
    var view := Entries(c);
    if top == 0 {
      KeptBelowEnds(view, 0);
    } else if top > |view| {
      KeptBelowEnds(view, top);
      KeptBelowEnds(view, top - 1);
      DeleteFromTopStores(c, top - 1);
    } else {
      var i := top - 1;
      KeptBelowStep(view, i);
      if view[i].status == AUTO_DISABLED {
        StoredWithoutOne(c, i);
        DeleteFromTopStores(DeleteKeyStep(c, i).0, i);
      } else {
        DeleteFromTopStores(c, i);
      }
    }
  }

  lemma StoredWithoutOne(c: Channel, i: nat)
    requires Consistent(c) && ReadsArrays(c.json) && i < |Keys(c)|
    requires Storable(c.json, KeysOf(RemoveAt(Entries(c), i)))
    ensures var next := DeleteKeyStep(c, i).0;
            next.json == c.json && Consistent(next) && Entries(next) == RemoveAt(Entries(c), i)
  {
    hide DeleteKeyStep, ReadKeys, Storable, ReadsArrays;
    if |Keys(c)| == 1 {
      assert RemoveAt(Entries(c), i) == [];
      NothingStorable(c.json);
    }
    DeleteKeyRemovesExactlyOne(c, i);
  }

  /** Whatever the keys are: if every list of keys on the way is storable, deleting the disabled keys in
      one pass and deleting them one by one leave the same, exactly the other keys with their statuses. */
  lemma StorableDeletionsAgree(c: Channel)
    requires Consistent(c) && ReadsArrays(c.json) && StorableOnTheWay(c, |Keys(c)|)
    ensures Entries(DeleteFromTop(c, |Keys(c)|)) == Kept(Entries(c))
    ensures Entries(DeleteDisabledStep(c).0) == Kept(Entries(c))
  {
    hide DeleteDisabledStep, DeleteFromTop, StorableOnTheWay, ReadKeys, KeptBelow, Kept, KeysOf, Storable,
         HasDisabled, ReadsArrays;
    var view := Entries(c);
    DeleteFromTopStores(c, |view|);
    KeptBelowEnds(view, |view|);
    DeleteDisabledRemovesExactlyAutoDisabled(c);
    NothingDeleted(view);
  }

  lemma NothingDeleted(view: seq<Entry>)
    ensures Kept(view) == view ==> !HasDisabled(view)
  {
    KeptAll(view);
  }

  const THREE_KEYS: string := "[p\nq,b,x]"

  /** A reader for one array, whose first element has a line break. */
  const THREE_KEYS_READER: ArrayReader := s => if s == THREE_KEYS then Some(["p\nq", "b", "x"]) else None

  lemma LinesAreRead(json: ArrayReader, lines: seq<string>)
    requires FirmEnds(lines) && SepFree(lines, NEWLINE) && lines[0][0] != '[' && lines[0][0] !in SPACES
    ensures var column := Join(lines, NEWLINE);
            column != "" && ReadKeys(json, column) == lines && CountKeys(json, column) == |lines|
  {
    hide TrimSpace, Fields;
    var column := Join(lines, NEWLINE);
    assert column[0] == lines[0][0];
    OpensBracketMeans(column);
    FieldsOfJoin(lines, NEWLINE);
  }

  lemma TotalOfThree(a: string, b: string, c: string)
    ensures TotalLength([a, b, c]) == |a| + |b| + |c|
  {
    assert [a, b, c][1..] == [b, c] && [b, c][1..] == [c] && [c][1..] == [];
    assert TotalLength([c]) == |c| && TotalLength([b, c]) == |b| + |c|;
  }

  lemma ThreeKeysFit()
    ensures ReadsArrays(THREE_KEYS_READER)
  {
    hide TotalLength;
    TotalOfThree("p\nq", "b", "x");
    assert |THREE_KEYS| == 9;
  }

  lemma ThreeKeysAreRead()
    ensures ReadKeys(THREE_KEYS_READER, THREE_KEYS) == ["p\nq", "b", "x"]
  {
    hide Trim;
    assert THREE_KEYS[0] == '[' && THREE_KEYS[8] == ']';
    assert IsTrimmed(THREE_KEYS, SPACES);
    assert TrimSpace(THREE_KEYS) == THREE_KEYS;
  }

  /** What a compaction leaves when the lines that it writes are others than the keys. */
  lemma CompactedLines(c: Channel, left: seq<int>, lines: seq<string>)
    requires forall j :: 0 <= j < |left| ==> 0 <= left[j] < |Keys(c)|
    requires Join(Pick(Keys(c), left), NEWLINE) == Join(lines, NEWLINE) && |lines| >= |left|
    requires FirmEnds(lines) && SepFree(lines, NEWLINE) && lines[0][0] != '[' && lines[0][0] !in SPACES
    ensures var next := Compacted(c, left, c.disabledTime, c.disabledReason);
            && next.json == c.json && Keys(next) == lines && next.size == |lines|
            && next.status == Reindex(Disabled(c.status), left)
  {
    hide Join, ReadKeys, CountKeys, Disabled;
    LinesAreRead(c.json, lines);
  }

  /** A key with a line break shows the difference: one pass deletes both disabled keys, but deleting one
      by one first writes such a key as two lines, and the second of them is left. */
  lemma LineBreakKeyComesApart()
    ensures var c := Channel(THREE_KEYS_READER, THREE_KEYS, 3, map[0 := AUTO_DISABLED, 1 := AUTO_DISABLED],
                             map[], map[]);
            && ReadsArrays(c.json) && Consistent(c) && Keys(c) == ["p\nq", "b", "x"]
            && Keys(DeleteDisabledStep(c).0) == ["x"]
            && Keys(DeleteFromTop(c, 3)) == ["q", "x"]
  {
    hide ReadKeys, CountKeys, DeleteKeyStep, DeleteDisabledStep, DeleteFromTop, ReadsArrays;
    var status := map[0 := AUTO_DISABLED, 1 := AUTO_DISABLED];
    var c := Channel(THREE_KEYS_READER, THREE_KEYS, 3, status, map[], map[]);
    ThreeKeysFit();
    ThreeKeysAreRead();
    OnePassLeavesOne(c);
    var first := DeleteKeyStep(c, 1).0;
    FirstDeletionLeavesThree(c);
    var second := DeleteKeyStep(first, 0).0;
    SecondDeletionLeavesTwo(first);
    DeleteFromTopStep(c, 3);
    DeleteFromTopStep(c, 2);
    DeleteFromTopStep(first, 1);
    DeleteFromTopStep(second, 1);
  }

  lemma OnePassLeavesOne(c: Channel)
    requires Keys(c) == ["p\nq", "b", "x"]
    requires c.status == map[0 := AUTO_DISABLED, 1 := AUTO_DISABLED] && c.disabledTime == map[]
             && c.disabledReason == map[]
    ensures Keys(DeleteDisabledStep(c).0) == ["x"]
  {
    hide ReadKeys, Compacted, Disabled;
    var drop := AutoDisabled(3, c.status);
    assert 0 in drop && 1 in drop && 2 !in drop;
    assert Survivors(0, drop) == [] && Survivors(1, drop) == [] && Survivors(2, drop) == [];
    assert Survivors(3, drop) == [2];
    assert Pick(Keys(c), [2]) == ["x"];
    assert OfDisabled(c.disabledTime, c.status) == map[] && OfDisabled(c.disabledReason, c.status) == map[];
    NotSpaces();
    CompactedLines(c, [2], ["x"]);
  }

  lemma FirstDeletionLeavesThree(c: Channel)
    requires Keys(c) == ["p\nq", "b", "x"] && c.size == 3
    requires c.status == map[0 := AUTO_DISABLED, 1 := AUTO_DISABLED]
    ensures var next := DeleteKeyStep(c, 1).0;
            Keys(next) == ["p", "q", "x"] && next.size == 3 && next.status == map[0 := AUTO_DISABLED]
  {
    hide ReadKeys, Compacted;
    var written, lines := ["p\nq", "x"], ["p", "q", "x"];
    assert Survivors(3, {1}) == [0, 2];
    assert Pick(Keys(c), [0, 2]) == written;
    assert written[1..] == ["x"] && lines[1..] == ["q", "x"] && lines[1..][1..] == ["x"];
    assert Join(written, NEWLINE) == "p\nq\nx" == Join(lines, NEWLINE);
    NotSpaces();
    CompactedLines(c, [0, 2], lines);
    assert Reindex(Disabled(c.status), [0, 2]) == map[0 := AUTO_DISABLED];
  }

  lemma SecondDeletionLeavesTwo(c: Channel)
    requires Keys(c) == ["p", "q", "x"] && c.size == 3 && c.status == map[0 := AUTO_DISABLED]
    ensures Keys(DeleteKeyStep(c, 0).0) == ["q", "x"]
  {
    hide ReadKeys, Compacted, Disabled;
    assert Survivors(3, {0}) == [1, 2];
    assert Pick(Keys(c), [1, 2]) == ["q", "x"];
    NotSpaces();
    CompactedLines(c, [1, 2], ["q", "x"]);
  }

  lemma NotSpaces()
    ensures 'p' !in SPACES && 'q' !in SPACES && 'x' !in SPACES
  {
  }

  // ----- single statuses -----

  /** Disabling and enabling a key change nothing about any other key. Disabling sets the status to 2 and
      leaves time and reason; enabling sets it back to 1 and forgets them. An index that is not one of a key
      is refused. */
  lemma DisableEnableOneKey(c: Channel, index: int)
    requires Consistent(c)
    ensures var (disabled, outcome) := DisableStep(c, index);
            var (enabled, again) := EnableStep(disabled, index);
            if 0 <= index < |Keys(c)| then
              && outcome == again == Done
              && Details(disabled) == Details(c)[index := Details(c)[index].(status := 2)]
              && Details(enabled) == Details(c)[index := Detail(Keys(c)[index], 1, None, None)]
              && Consistent(disabled) && Consistent(enabled)
            else
              outcome == again == OutOfRange && disabled == enabled == c
  {
    hide ReadKeys, CountKeys;
    if 0 <= index < |Keys(c)| {
      CountIsKeys(c.json, c.column);
    }
  }

  /** Disabling everything disables exactly the enabled keys and fails when there are none. */
  lemma DisableAllKeepsOtherStatuses(c: Channel)
    requires Consistent(c)
    ensures var (next, outcome) := DisableAllStep(c);
            && (outcome == NothingToDo <==> forall i :: 0 <= i < |Details(c)| ==> Details(c)[i].status != 1)
            && Keys(next) == Keys(c)
            && (forall i :: 0 <= i < |Details(c)| ==>
                  Details(next)[i]
                  == if Details(c)[i].status == 1 then Details(c)[i].(status := 2) else Details(c)[i])
  {
    hide ReadKeys, CountKeys;
    if Keys(c) != [] {
      CountIsKeys(c.json, c.column);
    }
    var enabled := EnabledBelow(c.size, c.status);
    assert enabled == {} <==> forall i :: 0 <= i < |Details(c)| ==> i !in enabled;
    assert forall i :: 0 <= i < |Details(c)| ==> (i in enabled <==> Details(c)[i].status == 1);
  }

  /** Enabling everything leaves every key of the channel enabled, without times and reasons, and so
      undoes any disabling: whatever the statuses were, disabling everything again disables every key. */
  lemma EnableAllForgetsStatuses(c: Channel)
    ensures var next := EnableAllStep(c);
            && Keys(next) == Keys(c) && IndicesInRange(next)
            && (forall i :: 0 <= i < |Details(next)| ==> Details(next)[i] == Detail(Keys(c)[i], 1, None, None))
            && (Keys(c) != [] ==>
                  && Consistent(next)
                  && forall i :: 0 <= i < |Entries(c)| ==>
                         Entries(DisableAllStep(next).0)[i].status == 2)
  {
    hide ReadKeys, CountKeys;
    var next := EnableAllStep(c);
    if Keys(c) != [] {
      CountIsKeys(c.json, c.column);
      DisableAllKeepsOtherStatuses(next);
    }
  }
}
