/** The string functions the gateway relies on when it stores a list in one text column:
    trimming by a cut set, splitting at a separator and joining again. */
module Text {

  /** The characters that Go's `strings.TrimSpace` removes at either end. */
  predicate IsSpace(c: char) {
    || '\t' <= c <= '\r' || c == ' ' || c == '\U{0085}' || c == '\U{00A0}' || c == '\U{1680}'
    || '\U{2000}' <= c <= '\U{200A}' || c == '\U{2028}' || c == '\U{2029}' || c == '\U{202F}'
    || c == '\U{205F}' || c == '\U{3000}'
  }

  const SPACES: set<char> := set c: char | IsSpace(c)

  /** The code points of white space. */
  lemma SpacesExactly(c: char)
    ensures c in SPACES <==>
              || 9 <= c as int <= 13
              || c as int in {32, 0x85, 0xA0, 0x1680, 0x2028, 0x2029, 0x202F, 0x205F, 0x3000}
              || 0x2000 <= c as int <= 0x200A
  {
  }

  predicate IsTrimmed(s: string, cut: set<char>) {
    s == "" || (s[0] !in cut && s[|s| - 1] !in cut)
  }

  function Trim(s: string, cut: set<char>): (r: string)
    ensures IsTrimmed(r, cut)
    ensures IsTrimmed(s, cut) <==> r == s
    ensures forall c :: c in r ==> c in s
    decreases |s|
  {
    if s == "" then
      s
    else if s[0] in cut then
      Trim(s[1..], cut)
    else if s[|s| - 1] in cut then
      Trim(s[..|s| - 1], cut)
    else
      s
  }

  /** Trimming takes away a piece at either end, and nothing but characters of the cut set. */
  lemma {:induction false} TrimExactly(s: string, cut: set<char>) returns (from: nat, to: nat)
    ensures from <= to <= |s| && Trim(s, cut) == s[from..to]
    ensures forall i :: 0 <= i < from || to <= i < |s| ==> s[i] in cut
    decreases |s|
  {
    from, to := 0, |s|;
    if s != "" && s[0] in cut {
      from, to := TrimExactly(s[1..], cut);
      assert s[1..][from..to] == s[from + 1..to + 1];
      assert forall i :: 1 <= i < |s| ==> s[i] == s[1..][i - 1];
      from, to := from + 1, to + 1;
    } else if s != "" && s[|s| - 1] in cut {
      from, to := TrimExactly(s[..|s| - 1], cut);
      assert s[..|s| - 1][from..to] == s[from..to];
      assert forall i :: 0 <= i < |s| - 1 ==> s[i] == s[..|s| - 1][i];
    }
  }

  function TrimSpace(s: string): (r: string)
  {
    Trim(s, SPACES)
  }

  function Join(parts: seq<string>, sep: char): string {
    if |parts| == 0 then
      ""
    else if |parts| == 1 then
      parts[0]
    else
      parts[0] + [sep] + Join(parts[1..], sep)
  }

  function Split(s: string, sep: char): (parts: seq<string>)
    ensures parts != []
    ensures forall p :: p in parts ==> sep !in p
    ensures Join(parts, sep) == s
  {
    if s == "" then
      [""]
    else
      var rest := Split(s[1..], sep);
      if s[0] == sep then
        [""] + rest
      else
        assert ([[s[0]] + rest[0]] + rest[1..])[1..] == rest[1..];
        [[s[0]] + rest[0]] + rest[1..]
  }

  /** No part contains the separator. */
  predicate SepFree(parts: seq<string>, sep: char) {
    forall p :: p in parts ==> sep !in p
  }

  /** Splitting undoes joining when no part holds the separator. */
  lemma {:induction false} SplitOfJoin(parts: seq<string>, sep: char)
    requires parts != []
    requires SepFree(parts, sep)
    ensures Split(Join(parts, sep), sep) == parts
  {
    if |parts| == 1 {
      SplitOfSepFree(parts[0], sep);
    } else {
      SplitOfJoin(parts[1..], sep);
      SplitAfterPart(parts[0], sep, Join(parts[1..], sep));
    }
  }

  lemma {:induction false} SplitOfSepFree(p: string, sep: char)
    requires sep !in p
    ensures Split(p, sep) == [p]
  {
    if p != "" {
      SplitOfSepFree(p[1..], sep);
    }
  }

  lemma {:induction false} SplitAfterPart(p: string, sep: char, rest: string)
    requires sep !in p
    ensures Split(p + [sep] + rest, sep) == [p] + Split(rest, sep)
  {
    var whole := p + [sep] + rest;
    if p == "" {
      assert whole[1..] == rest;
    } else {
      SplitAfterPart(p[1..], sep, rest);
      assert whole[1..] == p[1..] + [sep] + rest;
      assert whole[0] == p[0] && p[0] in p;
      assert [p[0]] + p[1..] == p;
    }
  }

  /** How a text column is read back as a list: the empty column is the empty list, otherwise
      separators at both ends are dropped and the rest is split. */
  function Fields(column: string, sep: char): (r: seq<string>)
    ensures SepFree(r, sep)
  {
    if column == "" then [] else Split(Trim(column, {sep}), sep)
  }

  /** Storing a list in a column and reading it back gives the same list exactly when the list is
      empty or neither its first nor its last part is blank. */
  lemma {:induction false} FieldsOfJoin(parts: seq<string>, sep: char)
    requires SepFree(parts, sep)
    ensures Fields(Join(parts, sep), sep) == parts
            <==> (parts == [] || (parts[0] != "" && parts[|parts| - 1] != ""))
  {
    if parts != [] {
      var column := Join(parts, sep);
      SplitOfJoin(parts, sep);
      JoinEnds(parts, sep);
      if parts[0] != "" && parts[|parts| - 1] != "" {
        assert Trim(column, {sep}) == column;
      } else if column != "" {
        assert !IsTrimmed(column, {sep});
        assert Join(Split(Trim(column, {sep}), sep), sep) != column;
      }
    }
  }

  lemma {:induction false} JoinEnds(parts: seq<string>, sep: char)
    requires parts != []
    requires SepFree(parts, sep)
    ensures var column := Join(parts, sep);
            if column == "" then parts == [""]
            else (column[0] == sep <==> parts[0] == "")
                 && (column[|column| - 1] == sep <==> parts[|parts| - 1] == "")
  {
    if |parts| > 1 {
      JoinEnds(parts[1..], sep);
      var rest := Join(parts[1..], sep);
      var column := parts[0] + [sep] + rest;
      if rest == "" {
        assert parts[1..] == [""];
        assert parts[|parts| - 1] == "";
      } else {
        assert column[|column| - 1] == rest[|rest| - 1];
        assert parts[1..][|parts| - 2] == parts[|parts| - 1];
      }
      if parts[0] != "" {
        assert column[0] == parts[0][0];
        assert parts[0][0] in parts[0];
      }
    } else if parts[0] != "" {
      assert parts[0][0] in parts[0] && parts[0][|parts[0]| - 1] in parts[0];
    }
  }

  /** A text with a character outside the cut set is not trimmed away. */
  lemma {:induction false} TrimKeeps(s: string, cut: set<char>, c: char)
    requires c in s && c !in cut
    ensures Trim(s, cut) != ""
    decreases |s|
  {
    if s[0] in cut {
      TrimKeeps(s[1..], cut, c);
    } else if s[|s| - 1] in cut {
      assert s == s[..|s| - 1] + [s[|s| - 1]];
      TrimKeeps(s[..|s| - 1], cut, c);
    }
  }

  lemma {:induction false} TrimShortens(s: string, cut: set<char>)
    ensures |Trim(s, cut)| <= |s|
    decreases |s|
  {
    if s != "" && s[0] in cut {
      TrimShortens(s[1..], cut);
    } else if s != "" && s[|s| - 1] in cut {
      TrimShortens(s[..|s| - 1], cut);
    }
  }

  function TotalLength(parts: seq<string>): nat {
    if parts == [] then 0 else |parts[0]| + TotalLength(parts[1..])
  }

  lemma {:induction false} JoinLength(parts: seq<string>, sep: char)
    ensures parts != [] ==> |Join(parts, sep)| == TotalLength(parts) + |parts| - 1
  {
    if |parts| > 1 {
      JoinLength(parts[1..], sep);
    } else if |parts| == 1 {
      assert parts[1..] == [];
    }
  }

  lemma {:induction false} JoinContains(parts: seq<string>, sep: char, i: nat, c: char)
    requires i < |parts| && c in parts[i]
    ensures c in Join(parts, sep)
  {
    if i > 0 {
      JoinContains(parts[1..], sep, i - 1, c);
    }
  }

  lemma {:induction false} JoinSnoc(parts: seq<string>, last: string, sep: char)
    requires parts != []
    ensures Join(parts + [last], sep) == Join(parts, sep) + [sep] + last
  {
    if |parts| == 1 {
      assert (parts + [last])[1..] == [last];
    } else {
      JoinSnoc(parts[1..], last, sep);
      assert (parts + [last])[1..] == parts[1..] + [last];
      var head, rest := parts[0] + [sep], Join(parts[1..], sep);
      assert head + (rest + [sep] + last) == (head + rest) + [sep] + last;
    }
  }

  /** Neither end is blank. */
  predicate FirmEnds(parts: seq<string>) {
    parts != [] && parts[0] != "" && parts[|parts| - 1] != ""
  }

  /** What is read from a column has firm ends, unless the column has nothing but separators. */
  lemma FieldsHaveFirmEnds(column: string, sep: char)
    requires column != ""
    ensures if Trim(column, {sep}) == "" then Fields(column, sep) == [""] else FirmEnds(Fields(column, sep))
  {
    hide Trim;
    var t := Trim(column, {sep});
    JoinEnds(Split(t, sep), sep);
  }

  /** Blank parts at the end are lost. */
  lemma {:induction false} TrailingBlanksAreLost(parts: seq<string>, n: nat, sep: char)
    requires 1 <= n <= |parts| && SepFree(parts, sep) && FirmEnds(parts[..n])
    requires forall i :: n <= i < |parts| ==> parts[i] == ""
    ensures Join(parts, sep) != "" && Fields(Join(parts, sep), sep) == parts[..n]
  {
    hide Split, Join;
    var last := |parts| - 1;
    JoinEnds(parts, sep);
    if n == |parts| {
      assert parts[..n] == parts;
      FieldsOfJoin(parts, sep);
    } else {
      var init := parts[..last];
      assert init[..n] == parts[..n] && parts == init + [""];
      TrailingBlanksAreLost(init, n, sep);
      JoinSnoc(init, "", sep);
      JoinEnds(init, sep);
      var s := Join(init, sep);
      assert (s + [sep] + "")[..|s|] == s;
    }
  }

  /** Whatever is lost, what is read back was among the parts written. */
  lemma {:induction false} FieldsAreParts(parts: seq<string>, sep: char)
    requires parts != [] && SepFree(parts, sep)
    ensures forall p :: p in Fields(Join(parts, sep), sep) ==> p in parts
  {
    hide Split, Join;
    var column, last := Join(parts, sep), |parts| - 1;
    JoinEnds(parts, sep);
    if FirmEnds(parts) {
      FieldsOfJoin(parts, sep);
    } else if |parts| > 1 && parts[0] == "" {
      LeadingBlank(parts, sep);
      FieldsAreParts(parts[1..], sep);
    } else if |parts| > 1 {
      var init := parts[..last];
      assert parts == init + [""];
      JoinEnds(init, sep);
      JoinSnoc(init, "", sep);
      var s := Join(init, sep);
      assert (s + [sep] + "")[..|s|] == s;
      FieldsAreParts(init, sep);
    } else {
      assert parts == [""];
      OneBlank(sep);
    }
  }

  lemma OneBlank(sep: char)
    ensures Join([""], sep) == ""
  {
  }

  lemma LeadingBlank(parts: seq<string>, sep: char)
    requires |parts| > 1 && parts[0] == "" && SepFree(parts, sep)
    ensures forall p :: p in Fields(Join(parts, sep), sep) ==> p == "" || p in Fields(Join(parts[1..], sep), sep)
  {
    hide Split;
    var rest := Join(parts[1..], sep);
    assert ([] + [sep] + rest)[1..] == rest;
    if rest == "" {
      assert Trim("", {sep}) == "";
      BlankSplit(sep);
    }
  }

  lemma BlankSplit(sep: char)
    ensures Split("", sep) == [""]
  {
  }

  /** The first character that is not a space is an opening bracket. */
  predicate OpensBracket(s: string) {
    s != "" && (if s[0] in SPACES then OpensBracket(s[1..]) else s[0] == '[')
  }

  lemma {:induction false} OpensBracketMeans(s: string)
    ensures OpensBracket(s) <==> "[" <= TrimSpace(s)
    decreases |s|
  {
    if s != "" {
      if s[0] in SPACES {
        OpensBracketMeans(s[1..]);
      } else if s[|s| - 1] in SPACES {
        OpensBracketMeans(s[..|s| - 1]);
      }
    }
  }

  lemma {:induction false} OpensBracketOfJoin(parts: seq<string>, sep: char)
    requires sep in SPACES && forall p :: p in parts ==> !OpensBracket(p)
    ensures !OpensBracket(Join(parts, sep))
  {
    if |parts| == 1 {
      assert parts[0] in parts;
    } else if |parts| > 1 {
      assert parts[0] in parts;
      OpensBracketOfJoin(parts[1..], sep);
      OpensBracketOfConcat(parts[0], sep, Join(parts[1..], sep));
    }
  }

  lemma {:induction false} OpensBracketOfConcat(a: string, sep: char, b: string)
    requires sep in SPACES && !OpensBracket(a) && !OpensBracket(b)
    ensures !OpensBracket(a + [sep] + b)
  {
    var s := a + [sep] + b;
    if a == "" {
      assert s[1..] == b;
    } else {
      assert s[1..] == a[1..] + [sep] + b;
      if a[0] in SPACES {
        OpensBracketOfConcat(a[1..], sep, b);
      }
    }
  }
}
