/** The pieces of JavaScript's runtime semantics that the perk-selection engine
    relies on: UTF-16 strings, 32-bit integer conversions, the floor of a scaled
    generator output, Array.prototype.slice, and exceptions as results. */
module JsSemantics {

  /** One UTF-16 code unit, as returned by String.prototype.charCodeAt. */
  type CodeUnit = c: int | 0 <= c < 0x1_0000

  /** A JavaScript string: a sequence of UTF-16 code units. */
  type JsString = seq<CodeUnit>

  const TWO_31: int := 0x8000_0000
  const TWO_32: int := 0x1_0000_0000

  /** A value of the unsigned 32-bit range, the result of `x >>> 0`. */
  type Uint32 = x: int | 0 <= x < 0x1_0000_0000

  datatype Option<+T> = None | Some(value: T)

  /** A thrown Error is modelled as an Err value. */
  datatype Result<+T, +E> = Ok(value: T) | Err(error: E)

  /** The ECMAScript ToInt32 conversion of an integral number: the unique
      signed 32-bit value congruent to x modulo 2^32. */
  function ToInt32(x: int): (r: int)
    ensures -TWO_31 <= r < TWO_31
    ensures (x - r) % TWO_32 == 0
  {
    var m := x % TWO_32;
    if m >= TWO_31 then m - TWO_32 else m
  }

  /** The ECMAScript ToUint32 conversion of an integral number. */
  function ToUint32(x: int): (r: Uint32)
    ensures (x - r) % TWO_32 == 0
  {
    x % TWO_32
  }

  /** Math.abs on an integer. */
  function Abs(x: int): (r: nat)
    ensures r == x || r == -x
  {
    if x < 0 then -x else x
  }

  /** JavaScript truthiness of an optional string argument: `undefined` and
      the empty string are both falsy. */
  predicate Truthy(s: Option<JsString>)
  {
    s.Some? && s.value != []
  }

  /** Math.floor(u * n) where u = w / 2^32 is a generator output in [0, 1).
      The double product u * n is exact while |n| < 2^21 (u has at most 32
      significant bits), which covers the catalog sizes the engine scales by. */
  function FloorScaled(w: Uint32, n: int): (r: int)
    ensures n >= 1 ==> 0 <= r < n
  {
    FloorScaledBound(w, n);
    (w * n) / 0x1_0000_0000
  }

  lemma FloorScaledBound(w: Uint32, n: int)
    ensures n >= 1 ==> 0 <= (w * n) / TWO_32 < n
  {
    if n >= 1 {
      assert 0 <= w * n;
      assert w * n < TWO_32 * n by {
        assert (TWO_32 - w) * n > 0;
      }
    }
  }

  /** The index at which `xs.slice(0, end)` stops, for an integral `end`: a
      negative end counts back from the length. */
  function SliceEnd(len: nat, end: int): (k: nat)
    ensures k <= len
    ensures 0 <= end <= len ==> k == end
    ensures end > len ==> k == len
    ensures end < 0 ==> k == if len + end < 0 then 0 else len + end
  {
    if end < 0 then (if len + end < 0 then 0 else len + end)
    else if end < len then end
    else len
  }
}
