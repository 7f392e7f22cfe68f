/** The ordered, duplicate-free list algebra on model names: normalize, merge, subtract and
    intersect. */
module ModelNames {
  import opened Text

  /** Local model names to the names they have upstream. */
  type Mapping = map<string, string>

  const COMMA: char := ','

  function Elements(xs: seq<string>): set<string> {
    set x | x in xs
  }

  predicate NoDuplicates(xs: seq<string>) {
    xs == [] || (xs[0] !in xs[1..] && NoDuplicates(xs[1..]))
  }

  /** Equal elements of such a list stand at the same place. */
  lemma {:induction false} NoDuplicatesMeans(xs: seq<string>)
    ensures NoDuplicates(xs) <==> forall i, j :: 0 <= i < j < |xs| ==> xs[i] != xs[j]
  {
    if xs != [] {
      var rest := xs[1..];
      NoDuplicatesMeans(rest);
      if NoDuplicates(xs) {
        forall i, j | 0 <= i < j < |xs|
          ensures xs[i] != xs[j]
        {
          assert xs[j] == rest[j - 1];
          if i > 0 {
            assert xs[i] == rest[i - 1];
          }
        }
      } else if xs[0] in rest {
        var j :| 0 <= j < |rest| && rest[j] == xs[0];
        assert xs[0] == xs[j + 1];
      } else {
        var i, j :| 0 <= i < j < |rest| && rest[i] == rest[j];
        assert xs[i + 1] == xs[j + 1];
      }
    }
  }

  predicate IsName(m: string) {
    m != "" && IsTrimmed(m, SPACES)
  }

  /** The names trimmed, blank ones dropped, in order. */
  function TrimmedNames(names: seq<string>): (r: seq<string>)
    ensures forall m :: m in r ==> IsName(m)
  {
    if names == [] then
      []
    else
      var t := TrimSpace(names[0]);
      (if t == "" then [] else [t]) + TrimmedNames(names[1..])
  }

  lemma {:induction false} NoDuplicatesSnoc(xs: seq<string>, x: string)
    ensures NoDuplicates(xs + [x]) <==> NoDuplicates(xs) && x !in xs
  {
    if xs != [] {
      NoDuplicatesSnoc(xs[1..], x);
      assert (xs + [x])[1..] == xs[1..] + [x];
    }
  }

  /** Keeps the first occurrence of every element. */
  function Unique(xs: seq<string>): (r: seq<string>)
    ensures NoDuplicates(r)
    ensures forall x :: x in r <==> x in xs
    ensures |r| <= |xs|
  {
    if xs == [] then
      []
    else
      var n := |xs| - 1;
      var r := Unique(xs[..n]);
      assert xs == xs[..n] + [xs[n]];
      NoDuplicatesSnoc(r, xs[n]);
      if xs[n] in r then r else r + [xs[n]]
  }

  /** Where a name first occurs. */
  function FirstIndex(xs: seq<string>, x: string): (i: nat)
    requires x in xs
    ensures i < |xs| && xs[i] == x && forall j :: 0 <= j < i ==> xs[j] != x
  {
    if xs[0] == x then 0 else 1 + FirstIndex(xs[1..], x)
  }

  /** The elements that are kept stand in the order of their first occurrences. */
  lemma {:induction false} UniqueKeepsOrder(xs: seq<string>, i: nat, j: nat)
    requires i < j < |Unique(xs)|
    ensures Unique(xs)[i] in xs && Unique(xs)[j] in xs
    ensures FirstIndex(xs, Unique(xs)[i]) < FirstIndex(xs, Unique(xs)[j])
  {
    var n := |xs| - 1;
    var init := Unique(xs[..n]);
    assert xs == xs[..n] + [xs[n]];
    assert forall k :: 0 <= k < |init| ==> Unique(xs)[k] == init[k];
    FirstIndexOfPrefix(xs, n, init[i]);
    if j < |init| {
      UniqueKeepsOrder(xs[..n], i, j);
      FirstIndexOfPrefix(xs, n, init[j]);
    }
  }

  lemma FirstIndexOfPrefix(xs: seq<string>, n: nat, x: string)
    requires n <= |xs| && x in xs[..n]
    ensures x in xs && FirstIndex(xs, x) == FirstIndex(xs[..n], x)
  {
    var i := FirstIndex(xs[..n], x);
    assert xs[i] == x && forall j :: 0 <= j < i ==> xs[j] == xs[..n][j];
  }

  /** A list as `Normalize` leaves it. */
  predicate IsNormal(names: seq<string>) {
    NoDuplicates(names) && forall m :: m in names ==> IsName(m)
  }

  function Normalize(names: seq<string>): (r: seq<string>)
    ensures IsNormal(r)
  {
    Unique(TrimmedNames(names))
  }

  /** The names that a list has after normalizing: what trimming leaves of its entries, unless that is
      nothing. */
  lemma NormalizeElements(names: seq<string>)
    ensures forall m :: m in Normalize(names) <==> m != "" && exists n :: n in names && TrimSpace(n) == m
  {
    hide TrimSpace;
    forall m
      ensures m in TrimmedNames(names) <==> m != "" && exists n :: n in names && TrimSpace(n) == m
    {
      TrimmedElement(names, m);
    }
  }

  lemma {:induction false} TrimmedElement(names: seq<string>, m: string)
    ensures m in TrimmedNames(names) <==> m != "" && exists n :: n in names && TrimSpace(n) == m
  {
    hide TrimSpace;
    if names != [] {
      var rest := names[1..];
      TrimmedElement(rest, m);
      assert forall n :: n in names <==> n == names[0] || n in rest;
      if TrimSpace(names[0]) == m && m != "" {
        assert TrimmedNames(names)[0] == m;
      }
    }
  }

  /** The elements outside `s`, in order. */
  function Without(xs: seq<string>, s: set<string>): (r: seq<string>)
    ensures forall x :: x in r <==> x in xs && x !in s
    ensures |r| <= |xs|
    ensures NoDuplicates(xs) ==> NoDuplicates(r)
  {
    if xs == [] then
      []
    else
      var rest := Without(xs[1..], s);
      assert forall x :: x in xs <==> x == xs[0] || x in xs[1..];
      if xs[0] in s then rest else [xs[0]] + rest
  }

  /** The elements inside `s`, in order. */
  function Within(xs: seq<string>, s: set<string>): (r: seq<string>)
    ensures forall x :: x in r <==> x in xs && x in s
    ensures |r| <= |xs|
    ensures NoDuplicates(xs) ==> NoDuplicates(r)
  {
    if xs == [] then
      []
    else
      var rest := Within(xs[1..], s);
      assert forall x :: x in xs <==> x == xs[0] || x in xs[1..];
      if xs[0] in s then [xs[0]] + rest else rest
  }

  function Merge(base: seq<string>, appended: seq<string>): seq<string> {
    var merged := Normalize(base);
    merged + Without(Normalize(appended), Elements(merged))
  }

  function Subtract(base: seq<string>, removed: seq<string>): seq<string> {
    Without(Normalize(base), Elements(Normalize(removed)))
  }

  function Intersect(base: seq<string>, allowed: seq<string>): seq<string> {
    Within(Normalize(base), Elements(Normalize(allowed)))
  }

  // ----- laws of the list functions -----

  lemma {:induction false} UniqueFixed(xs: seq<string>)
    requires NoDuplicates(xs)
    ensures Unique(xs) == xs
  {
    if xs != [] {
      var n := |xs| - 1;
      assert xs == xs[..n] + [xs[n]];
      NoDuplicatesSnoc(xs[..n], xs[n]);
      UniqueFixed(xs[..n]);
    }
  }

  lemma {:induction false} TrimmedNamesFixed(names: seq<string>)
    requires forall m :: m in names ==> IsName(m)
    ensures TrimmedNames(names) == names
  {
    if names != [] {
      assert names[0] in names;
      assert forall m :: m in names[1..] ==> m in names;
      TrimmedNamesFixed(names[1..]);
      assert names == [names[0]] + names[1..];
    }
  }

  /** A normal list is left as it is, so normalizing twice is normalizing once. */
  lemma {:induction false} NormalizeFixed(names: seq<string>)
    requires IsNormal(names)
    ensures Normalize(names) == names
  {
    TrimmedNamesFixed(names);
    UniqueFixed(names);
  }

  lemma {:induction false} TrimmedNamesAppend(a: seq<string>, b: seq<string>)
    ensures TrimmedNames(a + b) == TrimmedNames(a) + TrimmedNames(b)
  {
    if a == [] {
      assert a + b == b;
    } else {
      assert (a + b)[1..] == a[1..] + b;
      TrimmedNamesAppend(a[1..], b);
    }
  }

  lemma {:induction false} WithoutSplit(a: seq<string>, b: seq<string>, s: set<string>)
    ensures Without(a + b, s) == Without(a, s) + Without(b, s)
  {
    if a == [] {
      assert a + b == b;
    } else {
      assert (a + b)[1..] == a[1..] + b;
      WithoutSplit(a[1..], b, s);
    }
  }

  lemma {:induction false} WithoutNone(xs: seq<string>, s: set<string>)
    requires forall x :: x in xs ==> x !in s
    ensures Without(xs, s) == xs
  {
    if xs != [] {
      assert xs[0] in xs;
      assert forall x :: x in xs[1..] ==> x in xs;
      WithoutNone(xs[1..], s);
      assert xs == [xs[0]] + xs[1..];
    }
  }

  lemma {:induction false} WithoutAll(xs: seq<string>, s: set<string>)
    requires forall x :: x in xs ==> x in s
    ensures Without(xs, s) == []
  {
    if Without(xs, s) != [] {
      assert Without(xs, s)[0] in Without(xs, s);
    }
  }

  lemma {:induction false} WithinAll(xs: seq<string>, s: set<string>)
    requires forall x :: x in xs ==> x in s
    ensures Within(xs, s) == xs
  {
    if xs != [] {
      assert xs[0] in xs;
      assert forall x :: x in xs[1..] ==> x in xs;
      WithinAll(xs[1..], s);
      assert xs == [xs[0]] + xs[1..];
    }
  }

  lemma {:induction false} WithinNone(xs: seq<string>, s: set<string>)
    requires forall x :: x in xs ==> x !in s
    ensures Within(xs, s) == []
  {
    if Within(xs, s) != [] {
      assert Within(xs, s)[0] in Within(xs, s);
    }
  }

  lemma WithoutSnoc(xs: seq<string>, x: string, s: set<string>)
    ensures Without(xs + [x], s) == Without(xs, s) + (if x in s then [] else [x])
  {
    WithoutSplit(xs, [x], s);
  }

  lemma UniqueSnoc(xs: seq<string>, x: string)
    ensures Unique(xs + [x]) == if x in xs then Unique(xs) else Unique(xs) + [x]
  {
    assert (xs + [x])[..|xs|] == xs;
  }

  lemma SnocOf(a: seq<string>, b: seq<string>)
    requires b != []
    ensures b == b[..|b| - 1] + [b[|b| - 1]]
    ensures a + b == a + b[..|b| - 1] + [b[|b| - 1]]
  {
  }

  /** De-duplicating a concatenation keeps the first part and what the second part adds. */
  lemma {:induction false} UniqueAppend(a: seq<string>, b: seq<string>)
    ensures Unique(a + b) == Unique(a) + Without(Unique(b), Elements(Unique(a)))
  {
    if b == [] {
      assert a + b == a;
    } else {
      var init, x := b[..|b| - 1], b[|b| - 1];
      UniqueAppend(a, init);
      UniqueAppendSnoc(a, init, x);
      SnocOf(a, b);
    }
  }

  lemma UniqueAppendSnoc(a: seq<string>, b: seq<string>, x: string)
    requires Unique(a + b) == Unique(a) + Without(Unique(b), Elements(Unique(a)))
    ensures Unique(a + b + [x]) == Unique(a) + Without(Unique(b + [x]), Elements(Unique(a)))
  {
    UniqueSnoc(a + b, x);
    UniqueSnoc(b, x);
    InAppend(a, b, x);
    if x !in b {
      WithoutSnoc(Unique(b), x, Elements(Unique(a)));
      AppendAssociates(Unique(a), Without(Unique(b), Elements(Unique(a))), [x]);
    }
  }

  lemma InAppend(a: seq<string>, b: seq<string>, x: string)
    ensures x in a + b <==> x in a || x in b
  {
  }

  lemma AppendAssociates(a: seq<string>, b: seq<string>, c: seq<string>)
    ensures a + (b + c) == (a + b) + c
    ensures a + (b + []) == a + b
  {
  }

  /** Appending a list without duplicates to a disjoint one keeps both as they are. */
  lemma {:induction false} NoDuplicatesAppend(a: seq<string>, b: seq<string>)
    requires NoDuplicates(a) && NoDuplicates(b)
    requires forall x :: x in b ==> x !in a
    ensures NoDuplicates(a + b)
  {
    if a == [] {
      assert a + b == b;
    } else {
      NoDuplicatesAppend(a[1..], b);
      assert (a + b)[1..] == a[1..] + b;
    }
  }

  lemma {:induction false} NoDuplicatesPrefix(xs: seq<string>, i: nat)
    requires NoDuplicates(xs) && i < |xs|
    ensures xs[i] !in xs[..i]
  {
    if i > 0 {
      NoDuplicatesPrefix(xs[1..], i - 1);
      assert xs[..i] == [xs[0]] + xs[1..][..i - 1];
    }
  }

  /** Removing an element that occurs once shortens the list by one. */
  lemma {:induction false} WithoutOne(xs: seq<string>, x: string)
    requires NoDuplicates(xs) && x in xs
    ensures |Without(xs, {x})| == |xs| - 1
  {
    if xs[0] == x {
      WithoutNone(xs[1..], {x});
    } else {
      WithoutOne(xs[1..], x);
    }
  }

  /** A list without duplicates is as long as its set of elements. */
  lemma {:induction false} CardinalityOfElements(xs: seq<string>)
    requires NoDuplicates(xs)
    ensures |Elements(xs)| == |xs|
  {
    if xs != [] {
      CardinalityOfElements(xs[1..]);
      assert xs[0] !in xs[1..];
      assert Elements(xs) == {xs[0]} + Elements(xs[1..]);
    } else {
      assert Elements(xs) == {};
    }
  }

  // ----- meaning of the four operations -----

  /** Merging is normalizing the concatenation: the base first, then what is new, once each. */
  lemma {:induction false} MergeIsNormalizedConcat(base: seq<string>, appended: seq<string>)
    ensures Merge(base, appended) == Normalize(base + appended)
  {
    TrimmedNamesAppend(base, appended);
    UniqueAppend(TrimmedNames(base), TrimmedNames(appended));
  }

  lemma MergeElements(base: seq<string>, appended: seq<string>)
    ensures IsNormal(Merge(base, appended))
    ensures Elements(Merge(base, appended)) == Elements(Normalize(base)) + Elements(Normalize(appended))
  {
    MergeIsNormalizedConcat(base, appended);
  }

  lemma SubtractElements(base: seq<string>, removed: seq<string>)
    ensures IsNormal(Subtract(base, removed))
    ensures Elements(Subtract(base, removed)) == Elements(Normalize(base)) - Elements(Normalize(removed))
  {
  }

  lemma IntersectElements(base: seq<string>, allowed: seq<string>)
    ensures IsNormal(Intersect(base, allowed))
    ensures Elements(Intersect(base, allowed)) == Elements(Normalize(base)) * Elements(Normalize(allowed))
  {
  }

  /** Subtraction and intersection partition a normal list. */
  lemma SubtractIntersectPartition(base: seq<string>, other: seq<string>)
    ensures Elements(Subtract(base, other)) !! Elements(Intersect(base, other))
    ensures Elements(Subtract(base, other)) + Elements(Intersect(base, other)) == Elements(Normalize(base))
    ensures |Subtract(base, other)| + |Intersect(base, other)| == |Normalize(base)|
  {
    SubtractElements(base, other);
    IntersectElements(base, other);
    var names, s := Normalize(base), Elements(Normalize(other));
    PartitionLength(names, s);
  }

  lemma {:induction false} PartitionLength(xs: seq<string>, s: set<string>)
    ensures |Without(xs, s)| + |Within(xs, s)| == |xs|
  {
    if xs != [] {
      PartitionLength(xs[1..], s);
    }
  }

  lemma MergeLoopStep(start: seq<string>, init: seq<string>, x: string)
    requires x !in init
    ensures Without(init + [x], Elements(start))
         == Without(init, Elements(start)) + (if x in start then [] else [x])
    ensures x !in Without(init, Elements(start))
  {
    WithoutSnoc(init, x, Elements(start));
  }

  lemma NothingWithout(s: set<string>)
    ensures Without([], s) == []
  {
  }

  /** The merge loop: a list that grows and the set of names already in it. */
  method MergeModelNames(base: seq<string>, appended: seq<string>) returns (merged: seq<string>)
    ensures merged == Merge(base, appended)
  {
    hide Normalize, Without, NoDuplicates;
    merged := Normalize(base);
    ghost var start := merged;
    var seen := Elements(merged);
    var rest := Normalize(appended);
    NothingWithout(Elements(start));
    var i := 0;
    while i < |rest|
      invariant 0 <= i <= |rest|
      invariant merged == start + Without(rest[..i], Elements(start))
      invariant forall m :: m in seen <==> m in merged
    {
      NoDuplicatesPrefix(rest, i);
      MergeLoopStep(start, rest[..i], rest[i]);
      assert rest[..i + 1] == rest[..i] + [rest[i]];
      AppendAssociates(start, Without(rest[..i], Elements(start)), [rest[i]]);
      if rest[i] !in seen {
        seen := seen + {rest[i]};
        merged := merged + [rest[i]];
      }
      i := i + 1;
    }
    assert rest[..i] == rest;
  }

  // ----- the comma-separated column -----

  /** The models of a channel: the column split at commas, then normalized. */
  function ColumnNames(column: string): (r: seq<string>)
    ensures IsNormal(r)
    ensures SepFree(r, COMMA)
  {
    var r := Normalize(Fields(column, COMMA));
    NormalizeKeepsSepFree(Fields(column, COMMA), COMMA);
    r
  }

  /** The column after merging more names into it; it is rewritten only if the list grows. */
  function ExtendedColumn(column: string, added: seq<string>): string {
    var names := ColumnNames(column);
    var merged := Merge(names, added);
    if |merged| > |names| then Join(merged, COMMA) else column
  }

  lemma {:induction false} NormalizeKeepsSepFree(names: seq<string>, sep: char)
    requires SepFree(names, sep)
    ensures SepFree(Normalize(names), sep)
  {
    TrimmedNamesKeepSepFree(names, sep);
  }

  lemma {:induction false} TrimmedNamesKeepSepFree(names: seq<string>, sep: char)
    requires SepFree(names, sep)
    ensures SepFree(TrimmedNames(names), sep)
  {
    if names != [] {
      assert names[0] in names;
      assert forall m :: m in names[1..] ==> m in names;
      TrimmedNamesKeepSepFree(names[1..], sep);
    }
  }

  /** A normal list survives the column exactly when no name contains a comma. */
  lemma ColumnRoundTrip(names: seq<string>)
    requires IsNormal(names)
    ensures ColumnNames(Join(names, COMMA)) == names <==> SepFree(names, COMMA)
  {
    if SepFree(names, COMMA) {
      FieldsOfJoin(names, COMMA);
      if names != [] {
        assert names[0] in names && names[|names| - 1] in names;
      }
      NormalizeFixed(names);
    }
  }
}
