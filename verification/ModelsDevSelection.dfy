/** Choosing, among the providers of a public price list, the price of each model, and turning the
    chosen prices into ratios. */
module ModelsDevSelection {
  import opened Options
  import opened PricingValues
  import opened Sets

  /** A decoded price; a list may leave it out, and a number need not be finite. */
  datatype Price = Missing | NotFinite | Amount(value: real)

  datatype Cost = Cost(input: Price, output: Price, cacheRead: Price)

  datatype Candidate = Candidate(provider: string, input: real, output: Option<real>, cacheRead: Option<real>)

  /** Provider name to model name to cost. */
  type PriceList = map<string, map<string, Cost>>

  datatype Error = EmptyResponse | NoValidEntries

  // ----- the order of names -----

  predicate Before(a: string, b: string) {
    if b == "" then false
    else if a == "" then true
    else a[0] < b[0] || (a[0] == b[0] && Before(a[1..], b[1..]))
  }

  lemma {:induction false} BeforeIsStrictOrder(a: string, b: string)
    ensures !Before(a, a)
    ensures !(Before(a, b) && Before(b, a))
    ensures Before(a, b) || a == b || Before(b, a)
  {
    if a != "" {
      BeforeIsStrictOrder(a[1..], if b == "" then "" else b[1..]);
      if b != "" && a[0] == b[0] && a[1..] == b[1..] {
        assert a == [a[0]] + a[1..] && b == [b[0]] + b[1..];
      }
    }
  }

  lemma {:induction false} BeforeIsTransitive(a: string, b: string, c: string)
    requires Before(a, b) && Before(b, c)
    ensures Before(a, c)
  {
    if a != "" && a[0] == b[0] && b[0] == c[0] {
      BeforeIsTransitive(a[1..], b[1..], c[1..]);
    }
  }

  predicate Ascending(names: seq<string>) {
    forall i, j :: 0 <= i < j < |names| ==> Before(names[i], names[j])
  }

  /** Inserts a new name into an ascending listing. */
  method Insert(names: seq<string>, x: string) returns (r: seq<string>)
    requires Ascending(names) && x !in names
    ensures Ascending(r)
    ensures forall y :: y in r <==> y in names || y == x
  {
    var i := 0;
    while i < |names| && Before(names[i], x)
      invariant i <= |names|
      invariant forall k :: 0 <= k < i ==> Before(names[k], x)
    {
      i := i + 1;
    }
    forall k | i <= k < |names|
      ensures Before(x, names[k])
    {
      BeforeIsStrictOrder(names[i], x);
      if k > i {
        BeforeIsTransitive(x, names[i], names[k]);
      }
    }
    r := names[..i] + [x] + names[i..];
    assert names == names[..i] + names[i..];
  }

  /** The keys of a table in ascending order. */
  method SortedKeys(keys: set<string>) returns (names: seq<string>)
    ensures Ascending(names)
    ensures forall y :: y in names <==> y in keys
  {
    names := [];
    var rest := keys;
    while rest != {}
      invariant rest <= keys
      invariant Ascending(names)
      invariant forall y :: y in names <==> y in keys - rest
      decreases rest
    {
      ghost var some := SomeMember(rest);
      var x :| x in rest;
      names := Insert(names, x);
      rest := rest - {x};
    }
  }

  // ----- candidates -----

  predicate IsValidCost(p: Price) {
    p.Amount? && p.value >= 0.0
  }

  function BuildCandidate(provider: string, cost: Cost): Option<Candidate> {
    if !IsValidCost(cost.input) then
      None
    else if !cost.output.Missing? && !IsValidCost(cost.output) then
      None
    else
      var output := if cost.output.Missing? then None else Some(cost.output.value);
      if cost.input.value == 0.0 && output.Some? && output.value > 0.0 then
        None
      else
        var cacheRead := if IsValidCost(cost.cacheRead) then Some(cost.cacheRead.value) else None;
        Some(Candidate(provider, cost.input.value, output, cacheRead))
  }

  /** A cost that has ratios: a finite input price that is not negative, an output price that is missing or
      such an amount, and no paid output for a free input. */
  predicate Usable(cost: Cost) {
    && cost.input.Amount? && cost.input.value >= 0.0
    && (cost.output.Missing? || (cost.output.Amount? && cost.output.value >= 0.0))
    && (cost.input.value == 0.0 && cost.output.Amount? ==> cost.output.value == 0.0)
  }

  /** A candidate is made of exactly the usable costs, and holds the listed prices; a cache price that is
      not an amount, or is negative, is left out. */
  lemma CandidateExactly(provider: string, cost: Cost)
    ensures BuildCandidate(provider, cost).Some? <==> Usable(cost)
    ensures Usable(cost) ==>
              var c := BuildCandidate(provider, cost).value;
              && c.provider == provider && c.input == cost.input.value
              && c.output == (match cost.output case Amount(value) => Some(value) case _ => None)
              && c.cacheRead == (match cost.cacheRead
                                 case Amount(value) => if value < 0.0 then None else Some(value)
                                 case _ => None)
  {
  }

  predicate ShouldReplace(current: Candidate, next: Candidate) {
    var currentNonZero := current.input > 0.0;
    var nextNonZero := next.input > 0.0;
    if currentNonZero != nextNonZero then
      nextNonZero
    else if nextNonZero && !NearlyEqual(next.input, current.input) then
      next.input < current.input
    else
      Before(next.provider, current.provider)
  }

  /** What a provider offers for a model. */
  function Offer(prices: PriceList, provider: string, model: string): Option<Candidate> {
    if provider in prices && model in prices[provider] then BuildCandidate(provider, prices[provider][model]) else None
  }

  /** The candidate held after one more offer. */
  function Better(held: Option<Candidate>, next: Option<Candidate>): Option<Candidate> {
    if next.Some? && (held.None? || ShouldReplace(held.value, next.value)) then next else held
  }

  /** The candidate held after scanning the given providers. */
  function Selected(prices: PriceList, providers: seq<string>, model: string): Option<Candidate> {
    if providers == [] then
      None
    else
      var n := |providers| - 1;
      Better(Selected(prices, providers[..n], model), Offer(prices, providers[n], model))
  }

  // ----- the scan -----

  lemma SelectedStep(prices: PriceList, providers: seq<string>, i: nat, m: string)
    requires i < |providers|
    ensures Selected(prices, providers[..i + 1], m)
         == Better(Selected(prices, providers[..i], m), Offer(prices, providers[i], m))
  {
    hide Offer, ShouldReplace;
    assert providers[..i + 1][..i] == providers[..i];
  }

  /** Offers of one provider, taken in model order. */
  method ScanProvider(prices: PriceList, providers: seq<string>, i: nat, before: map<string, Candidate>)
      returns (held: map<string, Candidate>)
    requires i < |providers| && providers[i] in prices
    requires forall m :: m in before <==> Selected(prices, providers[..i], m).Some?
    requires forall m :: m in before ==> before[m] == Selected(prices, providers[..i], m).value
    ensures forall m :: m in held <==> Selected(prices, providers[..i + 1], m).Some?
    ensures forall m :: m in held ==> held[m] == Selected(prices, providers[..i + 1], m).value
  {
    hide Selected, ShouldReplace, BuildCandidate;
    forall m
      ensures Selected(prices, providers[..i + 1], m)
           == Better(Selected(prices, providers[..i], m), Offer(prices, providers[i], m))
    {
      SelectedStep(prices, providers, i, m);
    }
    var provider := providers[i];
    var models := SortedKeys(prices[provider].Keys);
    AscendingIsDistinct(models);
    held := before;
    ghost var done: set<string> := {};
    for j := 0 to |models|
      invariant done <= prices[provider].Keys
      invariant forall k :: 0 <= k < |models| ==> (models[k] in done <==> k < j)
      invariant forall m :: m in done ==>
                  (m in held <==> Selected(prices, providers[..i + 1], m).Some?)
                  && (m in held ==> held[m] == Selected(prices, providers[..i + 1], m).value)
      invariant forall m :: m !in done ==> (m in held <==> m in before) && (m in held ==> held[m] == before[m])
    {
      var model := models[j];
      var candidate := BuildCandidate(provider, prices[provider][model]);
      if candidate.Some? {
        if model !in held || ShouldReplace(held[model], candidate.value) {
          held := held[model := candidate.value];
        }
      }
      done := done + {model};
    }
    assert done == prices[provider].Keys;
  }

  lemma AscendingIsDistinct(names: seq<string>)
    requires Ascending(names)
    ensures forall i, j :: 0 <= i < |names| && 0 <= j < |names| && i != j ==> names[i] != names[j]
  {
    forall i, j | 0 <= i < j < |names|
      ensures names[i] != names[j]
    {
      BeforeIsStrictOrder(names[i], names[j]);
    }
  }

  method SelectCandidates(prices: PriceList)
      returns (result: Result<map<string, Candidate>, Error>, ghost order: seq<string>)
    ensures Ascending(order) && forall p :: p in order <==> p in prices
    ensures result == Err(EmptyResponse) <==> prices == map[]
    ensures result == Err(NoValidEntries) <==> prices != map[] && forall m :: Selected(prices, order, m).None?
    ensures result.Ok? ==> forall m :: m in result.value <==> Selected(prices, order, m).Some?
    ensures result.Ok? ==> forall m :: m in result.value ==> result.value[m] == Selected(prices, order, m).value
  {
    if |prices| == 0 {
      return Err(EmptyResponse), [];
    }
    var providers := SortedKeys(prices.Keys);
    order := providers;
    var held: map<string, Candidate> := map[];
    for i := 0 to |providers|
      invariant forall m :: m in held <==> Selected(prices, providers[..i], m).Some?
      invariant forall m :: m in held ==> held[m] == Selected(prices, providers[..i], m).value
    {
      held := ScanProvider(prices, providers, i, held);
    }
    assert providers[..|providers|] == providers;
    if |held| == 0 {
      return Err(NoValidEntries), order;
    }
    var m :| m in held;
    return Ok(held), order;
  }

  // ----- what is selected -----

  /** The candidate held is an offer of a scanned provider. */
  lemma {:induction false} SelectedIsOffered(prices: PriceList, providers: seq<string>, model: string)
    requires Selected(prices, providers, model).Some?
    ensures exists i :: 0 <= i < |providers| && Offer(prices, providers[i], model) == Selected(prices, providers, model)
  {
    var n := |providers| - 1;
    var held := Selected(prices, providers[..n], model);
    if Offer(prices, providers[n], model) == Selected(prices, providers, model) {
    } else {
      SelectedIsOffered(prices, providers[..n], model);
      var i :| 0 <= i < n && Offer(prices, providers[..n][i], model) == held;
      assert providers[i] == providers[..n][i];
    }
  }

  /** In ascending order a tie never replaces the candidate held. */
  lemma LaterProviderLosesTies(prices: PriceList, providers: seq<string>, model: string, n: nat)
    requires Ascending(providers) && n < |providers|
    requires Offer(prices, providers[n], model).Some? && Selected(prices, providers[..n], model).Some?
    ensures !Before(Offer(prices, providers[n], model).value.provider,
                 Selected(prices, providers[..n], model).value.provider)
  {
    SelectedIsOffered(prices, providers[..n], model);
    var i :| 0 <= i < n && Offer(prices, providers[..n][i], model) == Selected(prices, providers[..n], model);
    BeforeIsStrictOrder(providers[i], providers[n]);
  }

  /** For every model with an offer the scan selects one; it is a non-zero price if any is offered,
      less than the tolerance above every other non-zero price, and from the first provider that asks
      exactly this price. */
  lemma {:induction false} SelectedIsNearlyCheapest(prices: PriceList, providers: seq<string>, model: string, i: nat)
    requires Ascending(providers) && i < |providers| && Offer(prices, providers[i], model).Some?
    ensures var offer := Offer(prices, providers[i], model).value;
            var selected := Selected(prices, providers, model);
            && selected.Some?
            && (offer.input > 0.0 ==> 0.0 < selected.value.input < offer.input + 0.000000001)
            && (offer.input == selected.value.input ==> !Before(offer.provider, selected.value.provider))
  {
    hide Offer;
    var n := |providers| - 1;
    assert providers[..n + 1] == providers;
    if Selected(prices, providers[..n], model).Some? && Offer(prices, providers[n], model).Some? {
      LaterProviderLosesTies(prices, providers, model, n);
    }
    if Selected(prices, providers, model).Some? {
      BeforeIsStrictOrder(Selected(prices, providers, model).value.provider, "");
    }
    if i < n {
      assert providers[..n][i] == providers[i];
      SelectedIsNearlyCheapest(prices, providers[..n], model, i);
    }
  }

  predicate OffersNonZero(prices: PriceList, provider: string, model: string) {
    Offer(prices, provider, model).Some? && Offer(prices, provider, model).value.input > 0.0
  }

  /** Provider `i` is the first to ask the least non-zero price. */
  ghost predicate FirstCheapest(prices: PriceList, providers: seq<string>, model: string, i: nat) {
    && i < |providers| && OffersNonZero(prices, providers[i], model)
    && forall j :: 0 <= j < |providers| && OffersNonZero(prices, providers[j], model) ==>
                     var least := Offer(prices, providers[i], model).value.input;
                     var other := Offer(prices, providers[j], model).value.input;
                     least <= other && (j < i ==> least < other)
  }

  /** As soon as any provider offers a non-zero price, exactly one is the first to ask the least. */
  lemma {:induction false} OneFirstCheapest(prices: PriceList, providers: seq<string>, model: string, i: nat)
      returns (first: nat)
    requires i < |providers| && OffersNonZero(prices, providers[i], model)
    ensures FirstCheapest(prices, providers, model, first)
    ensures forall other: nat :: FirstCheapest(prices, providers, model, other) ==> other == first
  {
    hide Offer;
    var n := |providers| - 1;
    var before := providers[..n];
    if j: nat :| j < n && OffersNonZero(prices, before[j], model) {
      first := OneFirstCheapest(prices, before, model, j);
      assert providers[first] == before[first];
      forall k: nat | k < n && OffersNonZero(prices, providers[k], model)
        ensures Offer(prices, providers[first], model).value.input <= Offer(prices, providers[k], model).value.input
        ensures k < first ==>
                  Offer(prices, providers[first], model).value.input < Offer(prices, providers[k], model).value.input
      {
        assert before[k] == providers[k];
      }
      if OffersNonZero(prices, providers[n], model)
         && Offer(prices, providers[n], model).value.input < Offer(prices, providers[first], model).value.input {
        first := n;
      }
    } else {
      assert forall k :: 0 <= k < n ==> before[k] == providers[k];
      first := n;
    }
  }

  /** A price passed over for being within the tolerance of the one held. */
  predicate TiesWith(held: Option<Candidate>, price: real) {
    held.Some? && held.value.input > 0.0 && NearlyEqual(price, held.value.input)
  }

  /** Once the first cheapest offer was taken it stays, and once it was passed over nothing comes up to
      replace the dearer one. */
  lemma {:induction false} AfterCheapest(prices: PriceList, providers: seq<string>, model: string, i: nat, n: nat)
    requires Ascending(providers) && FirstCheapest(prices, providers, model, i) && i < n <= |providers|
    ensures var held := Selected(prices, providers[..i], model);
            var offer := Offer(prices, providers[i], model);
            Selected(prices, providers[..n], model)
            == if TiesWith(held, offer.value.input) then held else offer
  {
    hide Offer, Selected;
    AscendingPrefix(providers, n);
    SelectedStep(prices, providers, n - 1, model);
    var held := Selected(prices, providers[..n - 1], model);
    var next := Offer(prices, providers[n - 1], model);
    if held.Some? {
      SelectedIsOffered(prices, providers[..n - 1], model);
      if next.Some? {
        LaterProviderLosesTies(prices, providers, model, n - 1);
      }
    }
    if i < n - 1 {
      AfterCheapest(prices, providers, model, i, n - 1);
    }
  }

  lemma AscendingPrefix(providers: seq<string>, n: nat)
    requires Ascending(providers) && n <= |providers|
    ensures Ascending(providers[..n])
  {
  }

  /** The scan selects the least non-zero price if and only if what it holds when it comes to the first
      provider asking that price is nothing, free, or not within the tolerance of it. */
  lemma SelectsCheapestIff(prices: PriceList, providers: seq<string>, model: string, i: nat)
    requires Ascending(providers) && FirstCheapest(prices, providers, model, i)
    ensures var selected := Selected(prices, providers, model);
            var price := Offer(prices, providers[i], model).value.input;
            && selected.Some?
            && (selected.value.input == price <==> !TiesWith(Selected(prices, providers[..i], model), price))
  {
    hide Offer, Selected, NearlyEqual;
    AfterCheapest(prices, providers, model, i, |providers|);
    assert providers[..|providers|] == providers;
    if Selected(prices, providers[..i], model).Some? {
      SelectedIsOffered(prices, providers[..i], model);
    }
  }

  /** The tie need not be broken in favour of the cheaper price: two providers within the tolerance of
      each other, the dearer one first. */
  lemma SelectionNeedNotBeCheapest()
    ensures exists prices, providers, model, i ::
              && Ascending(providers) && 0 <= i < |providers| && Offer(prices, providers[i], model).Some?
              && Selected(prices, providers, model).Some?
              && Offer(prices, providers[i], model).value.input < Selected(prices, providers, model).value.input
  {
    var dear := Cost(Amount(1.0000000005), Missing, Missing);
    var cheap := Cost(Amount(1.0), Missing, Missing);
    var prices: PriceList := map["a" := map["m" := dear], "b" := map["m" := cheap]];
    var providers := ["a", "b"];
    assert Before("a", "b");
    var first := Candidate("a", 1.0000000005, None, None);
    var second := Candidate("b", 1.0, None, None);
    assert "a" != "b" by { assert "a"[0] != "b"[0]; }
    assert Offer(prices, "a", "m") == Some(first);
    assert Offer(prices, "b", "m") == Some(second);
    assert providers[..1] == ["a"] && ["a"][..0] == [];
    assert Selected(prices, [], "m") == None;
    assert Selected(prices, ["a"], "m") == Some(first);
    assert !Before("b", "a");
    assert Selected(prices, providers, "m") == Some(first);
    assert providers[1] == "b";
  }

  // ----- from prices to ratios -----

  const USD := 500.0
  const INPUT_COST_RATIO_BASE := 1000.0
  const RATIO_SCALE := 1000000.0

  /** Rounding to six decimals, halves away from zero; ratios are never negative. */
  function RoundRatio(x: real): real {
    (x * RATIO_SCALE + 0.5).Floor as real / RATIO_SCALE
  }

  /** The result has six decimals, and is the nearest such number. */
  lemma RoundRatioIsNearest(x: real) returns (millionths: int)
    ensures RoundRatio(x) == millionths as real / 1000000.0
    ensures x - 0.0000005 < RoundRatio(x) <= x + 0.0000005
  {
    var scaled := x * RATIO_SCALE;
    millionths := (scaled + 0.5).Floor;
    assert millionths as real <= scaled + 0.5 < millionths as real + 1.0;
  }

  lemma RoundRatioIsClose(x: real)
    ensures Distance(RoundRatio(x), x) <= 0.0000005
  {
    var millionths := RoundRatioIsNearest(x);
  }

  datatype Ratios = Ratios(model: map<string, real>, completion: map<string, real>, cache: map<string, real>)

  function PerInput(price: Option<real>, input: real): Option<real> {
    if input != 0.0 && price.Some? then Some(RoundRatio(price.value / input)) else None
  }

  function ModelRatioOf(c: Candidate): real {
    if c.input == 0.0 then 0.0 else RoundRatio(c.input * USD / INPUT_COST_RATIO_BASE)
  }

  function ModelRatios(selected: map<string, Candidate>, done: set<string>): map<string, real> {
    map m | m in selected && m in done :: ModelRatioOf(selected[m])
  }

  function OutputRatios(selected: map<string, Candidate>, done: set<string>): map<string, real> {
    map m | m in selected && m in done && PerInput(selected[m].output, selected[m].input).Some? ::
      PerInput(selected[m].output, selected[m].input).value
  }

  function CacheRatios(selected: map<string, Candidate>, done: set<string>): map<string, real> {
    map m | m in selected && m in done && PerInput(selected[m].cacheRead, selected[m].input).Some? ::
      PerInput(selected[m].cacheRead, selected[m].input).value
  }

  function RatiosOf(selected: map<string, Candidate>): Ratios {
    Ratios(ModelRatios(selected, selected.Keys), OutputRatios(selected, selected.Keys),
           CacheRatios(selected, selected.Keys))
  }

  lemma RatiosStep(selected: map<string, Candidate>, done: set<string>, m: string)
    requires m in selected && m !in done
    ensures ModelRatios(selected, done + {m}) == ModelRatios(selected, done)[m := ModelRatioOf(selected[m])]
    ensures var out := PerInput(selected[m].output, selected[m].input);
            OutputRatios(selected, done + {m})
            == if out.Some? then OutputRatios(selected, done)[m := out.value] else OutputRatios(selected, done)
    ensures var cache := PerInput(selected[m].cacheRead, selected[m].input);
            CacheRatios(selected, done + {m})
            == if cache.Some? then CacheRatios(selected, done)[m := cache.value] else CacheRatios(selected, done)
  {
    hide PerInput, ModelRatioOf;
  }

  method ConvertSelected(selected: map<string, Candidate>) returns (ratios: Ratios)
    ensures ratios == RatiosOf(selected)
  {
    hide RoundRatio, ModelRatios, OutputRatios, CacheRatios;
    var model, completion, cache: map<string, real> := map[], map[], map[];
    var rest := selected.Keys;
    ghost var done: set<string> := {};
    NoRatios(selected);
    while rest != {}
      invariant rest <= selected.Keys && done == selected.Keys - rest
      invariant model == ModelRatios(selected, done)
      invariant completion == OutputRatios(selected, done)
      invariant cache == CacheRatios(selected, done)
      decreases rest
    {
      ghost var some := SomeMember(rest);
      var m :| m in rest;
      var c := selected[m];
      if c.input == 0.0 {
        model := model[m := 0.0];
      } else {
        model := model[m := RoundRatio(c.input * USD / INPUT_COST_RATIO_BASE)];
        if c.output.Some? {
          completion := completion[m := RoundRatio(c.output.value / c.input)];
        }
        if c.cacheRead.Some? {
          cache := cache[m := RoundRatio(c.cacheRead.value / c.input)];
        }
      }
      RatiosStep(selected, done, m);
      done := done + {m};
      rest := rest - {m};
    }
    assert done == selected.Keys;
    return Ratios(model, completion, cache);
  }

  lemma NoRatios(selected: map<string, Candidate>)
    ensures ModelRatios(selected, {}) == map[] && OutputRatios(selected, {}) == map[]
            && CacheRatios(selected, {}) == map[]
  {
  }

  lemma ScaledError(rounded: real, exact: real, input: real, bound: real)
    requires input > 0.0 && Distance(rounded, exact) <= bound
    ensures Distance(rounded * input, exact * input) <= input * bound
  {
    var error := Distance(rounded, exact);
    DistanceScales(rounded, exact, input);
    assert error * input <= bound * input;
  }

  lemma DistanceScales(a: real, b: real, k: real)
    requires k > 0.0
    ensures Distance(a * k, b * k) == Distance(a, b) * k
  {
    assert a * k - b * k == (a - b) * k && b * k - a * k == (b - a) * k;
    if a > b {
      assert (a - b) * k > 0.0;
    } else {
      assert (b - a) * k >= 0.0;
    }
  }

  /** The ratio to the input price gives a price back up to the rounding. */
  predicate Recovers(ratio: real, price: real, input: real) {
    Distance(ratio * input, price) <= input * 0.0000005
  }

  lemma PerInputRecovers(price: Option<real>, input: real)
    requires input > 0.0
    ensures PerInput(price, input).Some? <==> price.Some?
    ensures price.Some? ==> Recovers(PerInput(price, input).value, price.value, input)
  {
    if price.Some? {
      RoundRatioIsClose(price.value / input);
      ScaledError(RoundRatio(price.value / input), price.value / input, input, 0.0000005);
      assert price.value / input * input == price.value;
    }
  }

  lemma ModelRatioRecovers(c: Candidate)
    requires c.input > 0.0
    ensures Distance(2.0 * ModelRatioOf(c), c.input) <= 0.000001
  {
    hide RoundRatio;
    var exact := c.input * USD / INPUT_COST_RATIO_BASE;
    RoundRatioIsClose(exact);
    assert exact == c.input / 2.0;
  }

  /** The ratios of a cost: none but a model ratio of zero for a free input; otherwise the model ratio gives
      the input price back up to the rounding, and the other ratios the output and the cache price. */
  predicate RatiosFit(r: Ratios, m: string, input: real, output: Option<real>, cacheRead: Option<real>) {
    && m in r.model
    && (input == 0.0 ==> r.model[m] == 0.0 && m !in r.completion && m !in r.cache)
    && (input > 0.0 ==>
          && Distance(2.0 * r.model[m], input) <= 0.000001
          && (m in r.completion <==> output.Some?)
          && (m in r.cache <==> cacheRead.Some?)
          && (output.Some? ==> Recovers(r.completion[m], output.value, input))
          && (cacheRead.Some? ==> Recovers(r.cache[m], cacheRead.value, input)))
  }

  /** The ratios give the prices of the candidate back up to the rounding. */
  lemma RatiosRecoverPrices(selected: map<string, Candidate>, m: string)
    requires m in selected && selected[m].input >= 0.0
    ensures RatiosFit(RatiosOf(selected), m, selected[m].input, selected[m].output, selected[m].cacheRead)
  {
    hide RoundRatio, Distance, Recovers;
    var c := selected[m];
    if c.input > 0.0 {
      ModelRatioRecovers(c);
      PerInputRecovers(c.output, c.input);
      PerInputRecovers(c.cacheRead, c.input);
    }
  }

  // ----- the whole conversion -----

  /** A listed price, if it is an amount and not negative. */
  function Listed(p: Price): Option<real> {
    match p
    case Amount(value) => if value >= 0.0 then Some(value) else None
    case _ => None
  }

  /** Provider `p` lists a usable cost for `m`. */
  predicate Lists(prices: PriceList, p: string, m: string) {
    p in prices && m in prices[p] && Usable(prices[p][m])
  }

  /** No provider lists a usable non-zero input price for `m` that undercuts that of `p` by more than the
      tolerance, and if any is non-zero, that of `p` is. */
  ghost predicate NearlyCheapest(prices: PriceList, p: string, m: string)
    requires Lists(prices, p, m)
  {
    forall q :: Lists(prices, q, m) && prices[q][m].input.value > 0.0 ==>
      0.0 < prices[p][m].input.value < prices[q][m].input.value + 0.000000001
  }

  /** The ratios of `m` are those of the cost that provider `p` lists. */
  ghost predicate FromProvider(prices: PriceList, p: string, m: string, r: Ratios) {
    && Lists(prices, p, m) && NearlyCheapest(prices, p, m)
    && var cost := prices[p][m];
       RatiosFit(r, m, cost.input.value, Listed(cost.output), Listed(cost.cacheRead))
  }

  lemma SelectedFromProvider(prices: PriceList, order: seq<string>, selected: map<string, Candidate>, m: string)
    requires Ascending(order) && forall p :: p in order <==> p in prices
    requires m in selected && Selected(prices, order, m) == Some(selected[m])
    ensures exists p :: FromProvider(prices, p, m, RatiosOf(selected))
  {
    hide Selected, RatiosFit, RatiosOf, BuildCandidate;
    SelectedIsOffered(prices, order, m);
    var i :| 0 <= i < |order| && Offer(prices, order[i], m) == Selected(prices, order, m);
    var p := order[i];
    CandidateExactly(p, prices[p][m]);
    CostIsListed(prices[p][m]);
    forall q | Lists(prices, q, m) && prices[q][m].input.value > 0.0
      ensures 0.0 < prices[p][m].input.value < prices[q][m].input.value + 0.000000001
    {
      var j :| 0 <= j < |order| && order[j] == q;
      CandidateExactly(q, prices[q][m]);
      SelectedIsNearlyCheapest(prices, order, m, j);
    }
    RatiosRecoverPrices(selected, m);
    assert FromProvider(prices, p, m, RatiosOf(selected));
  }

  lemma CostIsListed(cost: Cost)
    requires Usable(cost)
    ensures cost.input.value >= 0.0
    ensures Listed(cost.output) == (match cost.output case Amount(value) => Some(value) case _ => None)
    ensures Listed(cost.cacheRead) == (match cost.cacheRead
                                       case Amount(value) => if value < 0.0 then None else Some(value)
                                       case _ => None)
  {
  }

  lemma SelectedIfListed(prices: PriceList, order: seq<string>, m: string)
    requires Ascending(order) && forall p :: p in order <==> p in prices
    ensures Selected(prices, order, m).Some? <==> exists p :: Lists(prices, p, m)
  {
    hide Selected, BuildCandidate, Usable;
    if p :| Lists(prices, p, m) {
      var j :| 0 <= j < |order| && order[j] == p;
      CandidateExactly(p, prices[p][m]);
      SelectedIsNearlyCheapest(prices, order, m, j);
    }
    if Selected(prices, order, m).Some? {
      SelectedIsOffered(prices, order, m);
      var i :| 0 <= i < |order| && Offer(prices, order[i], m) == Selected(prices, order, m);
      CandidateExactly(order[i], prices[order[i]][m]);
      assert Lists(prices, order[i], m);
    }
  }

  /** From the price list to the ratios: exactly the models with a usable cost get a model ratio, and all
      ratios of a model are those of one provider, which is cheapest up to the tolerance. */
  method ConvertPriceList(prices: PriceList) returns (result: Result<Ratios, Error>)
    ensures result == Err(EmptyResponse) <==> prices == map[]
    ensures result == Err(NoValidEntries) <==> prices != map[] && forall p, m :: !Lists(prices, p, m)
    ensures result.Ok? ==> forall m :: m in result.value.model <==> exists p :: Lists(prices, p, m)
    ensures result.Ok? ==> forall m :: m in result.value.model ==> exists p :: FromProvider(prices, p, m, result.value)
    ensures result.Ok? ==> result.value.completion.Keys <= result.value.model.Keys
    ensures result.Ok? ==> result.value.cache.Keys <= result.value.model.Keys
  {
    hide Selected, RatiosFit, Lists, FromProvider;
    var selected, order := SelectCandidates(prices);
    forall m
      ensures Selected(prices, order, m).Some? <==> exists p :: Lists(prices, p, m)
    {
      SelectedIfListed(prices, order, m);
    }
    if selected.Err? {
      if selected.error == NoValidEntries {
        forall p, m
          ensures !Lists(prices, p, m)
        {
          assert Selected(prices, order, m).None?;
        }
      }
      return Err(selected.error);
    }
    forall m | m in selected.value
      ensures exists p :: FromProvider(prices, p, m, RatiosOf(selected.value))
    {
      SelectedFromProvider(prices, order, selected.value, m);
    }
    var ratios := ConvertSelected(selected.value);
    return Ok(ratios);
  }
}
