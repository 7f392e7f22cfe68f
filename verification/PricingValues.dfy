/** Values exchanged by the pricing synchronisation, and how they are compared. */
module PricingValues {
  const EPSILON := 0.000000001

  function Distance(a: real, b: real): real {
    if a > b then a - b else b - a
  }

  predicate NearlyEqual(a: real, b: real) {
    Distance(a, b) < EPSILON
  }

  /** Near equality is reflexive and symmetric, and two steps of it stay within twice the tolerance. */
  lemma NearlyEqualLaws(a: real, b: real, c: real)
    ensures NearlyEqual(a, a)
    ensures NearlyEqual(a, b) <==> NearlyEqual(b, a)
    ensures NearlyEqual(a, b) && NearlyEqual(b, c) ==> Distance(a, c) < 2.0 * EPSILON
  {
  }

  /** Near equality is not transitive. */
  lemma NearlyEqualIsNotTransitive()
    ensures exists a: real, b: real, c: real :: NearlyEqual(a, b) && NearlyEqual(b, c) && !NearlyEqual(a, c)
  {
    var a, b, c := 0.0, 0.0000000006, 0.0000000012;
    assert NearlyEqual(a, b) && NearlyEqual(b, c) && !NearlyEqual(a, c);
  }

  /** A decoded value: null, a float, an integer of a local table, a text or a flag. */
  datatype Value = Null | Float(number: real) | Integer(whole: int) | Str(text: string) | Bool(flag: bool)

  predicate ValuesEqual(a: Value, b: Value) {
    if a.Float? && b.Float? then NearlyEqual(a.number, b.number) else a == b
  }

  /** Two floats are equal if they are less than a billionth apart; any other values only if they are the
      same, so that a float never equals an integer. */
  lemma ValuesEqualExactly(a: Value, b: Value)
    ensures a.Float? && b.Float? ==> (ValuesEqual(a, b) <==> -0.000000001 < a.number - b.number < 0.000000001)
    ensures !(a.Float? && b.Float?) ==> (ValuesEqual(a, b) <==> a == b)
  {
  }

  datatype PricingField =
    | ModelRatio | CompletionRatio | CacheRatio | CreateCacheRatio | ImageRatio
    | AudioRatio | AudioCompletionRatio | ModelPrice | BillingMode | BillingExpr

  const FIELDS: seq<PricingField> := [
    ModelRatio, CompletionRatio, CacheRatio, CreateCacheRatio, ImageRatio,
    AudioRatio, AudioCompletionRatio, ModelPrice, BillingMode, BillingExpr]

  predicate IsNumeric(field: PricingField) {
    !field.BillingMode? && !field.BillingExpr?
  }

  function NormalizeValue(field: PricingField, v: Value): Value {
    if IsNumeric(field) && v.Integer? then Float(v.whole as real) else v
  }
}
