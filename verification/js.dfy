/**
 * The small part of JavaScript's value semantics that the MySQL adapter relies on:
 * optional values, the outcome of a call that may throw, scalar values with their
 * truthiness, `a || b` on strings, `String(x)` of an optional string, and the decimal
 * rendering used by `name + i`.
 */
module Js {

  datatype Option<T> = None | Some(value: T)

  /** The outcome of a JavaScript call that either returns or throws. */
  datatype Result<T, E> = Ok(value: T) | Err(error: E)

  /**
   * Scalar JavaScript values as the adapter sees them. Numbers are modelled as
   * integers (no NaN, no -0, no fractions); a Date is an opaque timestamp.
   */
  datatype Value =
    | Undefined
    | Null
    | Bool(b: bool)
    | Num(n: int)
    | Str(s: string)
    | Date(time: int)

  /** JavaScript truthiness: `undefined`, `null`, `false`, `0` and `''` are falsy. */
  predicate Truthy(v: Value)
  {
    match v
    case Undefined => false
    case Null => false
    case Bool(b) => b
    case Num(n) => n != 0
    case Str(s) => s != ""
    case Date(_) => true
  }

  /** Truthiness of a property that holds a string or is missing. */
  predicate Present(s: Option<string>)
  {
    s.Some? && s.value != ""
  }

  /** `a || b` where both sides are optional strings. */
  function Or(a: Option<string>, b: Option<string>): (r: Option<string>)
    ensures Present(a) ==> r == a
    ensures !Present(a) ==> r == b
  {
    if Present(a) then a else b
  }

  /** `String(x)` of a string or `undefined`. */
  function Stringify(s: Option<string>): (r: string)
    ensures s.Some? ==> r == s.value
    ensures s.None? ==> r == "undefined"
  {
    match s
    case Some(t) => t
    case None => "undefined"
  }

  function Digit(d: nat): (c: char)
    requires d < 10
    ensures '0' <= c <= '9'
  {
    "0123456789"[d]
  }

  /** The decimal rendering of a non-negative number, as `String(i)` produces it. */
  function NatToString(n: nat): (r: string)
    ensures |r| >= 1
    ensures forall k | 0 <= k < |r| :: '0' <= r[k] <= '9'
  {
    if n < 10 then [Digit(n)] else NatToString(n / 10) + [Digit(n % 10)]
  }

  /** Different numbers have different decimal renderings. */
  lemma {:induction false} NatToStringInjective(a: nat, b: nat)
    requires NatToString(a) == NatToString(b)
    ensures a == b
  {
    if a < 10 && b < 10 {
      assert NatToString(a)[0] == Digit(a) && NatToString(b)[0] == Digit(b);
    } else if a >= 10 && b >= 10 {
      var sa, sb := NatToString(a), NatToString(b);
      assert sa[|sa| - 1] == Digit(a % 10) && sb[|sb| - 1] == Digit(b % 10);
      assert a % 10 == b % 10;
      assert sa[..|sa| - 1] == NatToString(a / 10);
      assert sb[..|sb| - 1] == NatToString(b / 10);
      NatToStringInjective(a / 10, b / 10);
    }
  }

  /** `base + i` with a number `i`: the parameter naming scheme of the query builder. */
  function Suffixed(base: string, i: nat): (r: string)
    ensures |r| > |base| && r[..|base|] == base
  {
    base + NatToString(i)
  }

  /** Two suffixed names with the same base are equal only for the same number. */
  lemma SuffixedInjective(base: string, i: nat, j: nat)
    requires Suffixed(base, i) == Suffixed(base, j)
    ensures i == j
  {
    assert Suffixed(base, i)[|base|..] == NatToString(i);
    assert Suffixed(base, j)[|base|..] == NatToString(j);
    NatToStringInjective(i, j);
  }
}
