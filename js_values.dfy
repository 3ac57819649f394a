/**
 * The few JavaScript value semantics the colour map relies on: numbers that
 * may be NaN, truthiness, comparisons that are false on NaN, the
 * `Number.MIN_VALUE` / `Number.MAX_VALUE` sentinels, and `d3.map`'s habit of
 * turning every key into a string (so that `undefined` becomes "undefined").
 */
module JsValues {

  datatype Option<+T> = None | Some(value: T)

  /** `m.get(k)`: `undefined` (None) when the key is absent. */
  function Get<K, V>(m: map<K, V>, k: K): (r: Option<V>)
    ensures r.Some? <==> k in m
    ensures r.Some? ==> r.value == m[k]
  {
    if k in m then Some(m[k]) else None
  }

  /**
   * A JavaScript number as produced by unary `+`: either a finite value,
   * kept exactly as a real, or NaN. Rounding to binary64 and the infinities
   * are not modelled.
   */
  datatype Num = Finite(value: real) | NaN

  /** JavaScript truthiness of a number: NaN and zero are falsy. */
  predicate Truthy(x: Num) {
    x.Finite? && x.value != 0.0
  }

  /** `a < b` for a number against a finite bound; false when `a` is NaN. */
  predicate Less(a: Num, b: real) {
    a.Finite? && a.value < b
  }

  /** `a > b` for a number against a finite bound; false when `a` is NaN. */
  predicate Greater(a: Num, b: real) {
    a.Finite? && a.value > b
  }

  /** `x || fallback` where `x` is a looked-up number or `undefined`. */
  function OrElse(x: Option<Num>, fallback: real): (r: Num)
    ensures (x.Some? && r == x.value) || r == Finite(fallback)
    ensures x.Some? && Truthy(x.value) ==> r == x.value
    ensures (x.None? || !Truthy(x.value)) ==> r == Finite(fallback)
  {
    if x.Some? && Truthy(x.value) then x.value else Finite(fallback)
  }

  /**
   * The string `d3.map` stores a key under: a present string is itself, an
   * absent property (`undefined`) is the string "undefined".
   */
  function KeyString(k: Option<string>): (s: string)
    ensures k.Some? ==> s == k.value
    ensures k.None? ==> s == "undefined"
  {
    match k
    case Some(s) => s
    case None => "undefined"
  }

  /**
   * Two keys share a stored string only when they are equal, or when one is
   * absent and the other is the string "undefined".
   */
  lemma KeyStringCollides(a: Option<string>, b: Option<string>)
    ensures KeyString(a) == KeyString(b) <==>
      (a == b || (a == None && b == Some("undefined")) || (a == Some("undefined") && b == None))
  {
  }

  /** `Number.MIN_VALUE`: the smallest POSITIVE double, exactly 2^-1074. */
  const MinValue: real := 1.0 / 202402253307310618352495346718917307049556649764142118356901358027430339567995346891960383701437124495187077864316811911389808737385793476867013399940738509921517424276566361364466907742093216341239767678472745068562007483424692698618103355649159556340810056512358769552333414615230502532186327508646006263307707741093494784.0

  /** `Number.MAX_VALUE`: the largest finite double, exactly 2^1024 - 2^971. */
  const MaxValue: real := 179769313486231570814527423731704356798070567525844996598917476803157260780028538760589558632766878171540458953514382464234321326889464182768467546703537516986049910576551282076245490090389328944075868508455133942304583236903222948165808559332123348274797826204144723168738177180919299881250404026184124858368.0

  /** MIN_VALUE is positive, so a maximum started from it is never zero or negative. */
  lemma MinValueBetweenZeroAndOne()
    ensures 0.0 < MinValue < 1.0
  {
  }

  /** MAX_VALUE is larger than one, hence larger than MIN_VALUE. */
  lemma MaxValueAboveOne()
    ensures 1.0 < MaxValue
  {
  }
}
