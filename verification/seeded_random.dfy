/** The string-seeded linear congruential generator of the perk-selection
    engine: the rolling string hash, the generator step, and the Fisher–Yates
    shuffle driven by it. */
module Lcg {
  import opened JsSemantics

  const MULTIPLIER: int := 1664525
  const INCREMENT: int := 1013904223

  // ---------------------------------------------------------------------------
  // The rolling string hash

  /** The signed accumulator of the rolling hash after folding every code unit
      of s, starting from 0: h := ToInt32(31 * h + c). */
  function HashState(s: JsString): (h: int)
    ensures -TWO_31 <= h < TWO_31
  {
    if s == [] then 0 else ToInt32(31 * HashState(s[..|s| - 1]) + s[|s| - 1])
  }

  /** The seed a string hashes to: the absolute value of the accumulator. */
  function StringHash(s: JsString): (h: nat)
    ensures h <= TWO_31
  {
    Abs(HashState(s))
  }

  lemma ToInt32Congruent(x: int, y: int)
    requires (x - y) % TWO_32 == 0
    ensures ToInt32(x) == ToInt32(y)
  {
    var k := (x - y) / TWO_32;
    assert x == y + k * TWO_32;
    assert x % TWO_32 == y % TWO_32;
  }

  /** The source's update `(hash << 5) - hash + char` followed by `hash & hash`
      is the multiply-by-31 step of the hash: `hash << 5` is ToInt32(32 * hash). */
  lemma {:induction false} ShiftSubtractIsTimes31(h: int, c: CodeUnit)
    ensures ToInt32(ToInt32(h * 32) - h + c) == ToInt32(31 * h + c)
  {
    var t := ToInt32(h * 32);
    assert (h * 32 - t) % TWO_32 == 0;
    assert (t - h + c) - (31 * h + c) == -(h * 32 - t);
    ToInt32Congruent(t - h + c, 31 * h + c);
  }

  // ---------------------------------------------------------------------------
  // The generator step

  /** One step of the generator: seed := (a * seed + c) mod 2^32. The product
      stays below 2^53, so the double arithmetic of the source is exact. */
  function Step(s: Uint32): Uint32
  {
    (MULTIPLIER * s + INCREMENT) % 0x1_0000_0000
  }

  /** The state after k steps from s. */
  function Advance(s: Uint32, k: nat): Uint32
    decreases k
  {
    if k == 0 then s else Advance(Step(s), k - 1)
  }

  /** The numerators w of the next k values w / 2^32 that next() returns from
      state s. */
  function Stream(s: Uint32, k: nat): (ws: seq<Uint32>)
    decreases k
  {
    if k == 0 then [] else [Step(s)] + Stream(Step(s), k - 1)
  }

  /** Taking one more step after k steps is taking k + 1 steps. */
  lemma {:induction false} AdvanceStep(s: Uint32, k: nat)
    ensures Advance(s, k + 1) == Step(Advance(s, k))
    decreases k
  {
    if k > 0 {
      AdvanceStep(Step(s), k - 1);
    }
  }

  /** The i-th value of the stream is the state after i + 1 steps. */
  lemma {:induction false} StreamAt(s: Uint32, k: nat, i: nat)
    requires i < k
    ensures |Stream(s, k)| == k && Stream(s, k)[i] == Advance(s, i + 1)
    decreases k
  {
    StreamLength(s, k);
    if i > 0 {
      StreamAt(Step(s), k - 1, i - 1);
    }
  }

  lemma {:induction false} StreamLength(s: Uint32, k: nat)
    ensures |Stream(s, k)| == k
    decreases k
  {
    if k > 0 {
      StreamLength(Step(s), k - 1);
    }
  }

  // ---------------------------------------------------------------------------
  // The Fisher–Yates shuffle

  /** The swap partner of position i, drawn from generator output w:
      Math.floor(w / 2^32 * (i + 1)). */
  function SwapPartner(w: Uint32, i: nat): (j: nat)
    ensures j <= i
  {
    FloorScaled(w, i + 1)
  }

  /** xs with the elements at i and j exchanged. */
  function Swap<T>(xs: seq<T>, i: nat, j: nat): (ys: seq<T>)
    requires i < |xs| && j < |xs|
    ensures |ys| == |xs| && ys[i] == xs[j] && ys[j] == xs[i]
    ensures forall k :: 0 <= k < |xs| && k != i && k != j ==> ys[k] == xs[k]
  {
    xs[i := xs[j]][j := xs[i]]
  }

  /** The passes of the shuffle loop for positions i, i - 1, ..., 1, starting
      from sequence xs and generator state s: the shuffled sequence and the
      generator state afterwards. */
  function ShuffleFrom<T>(xs: seq<T>, i: int, s: Uint32): (seq<T>, Uint32)
    requires i < |xs|
    decreases i
  {
    if i <= 0 then (xs, s)
    else
      var s' := Step(s);
      ShuffleFrom(Swap(xs, i, SwapPartner(s', i)), i - 1, s')
  }

  /** The whole shuffle of xs from generator state s. */
  function Shuffled<T>(xs: seq<T>, s: Uint32): (seq<T>, Uint32)
  {
    ShuffleFrom(xs, |xs| - 1, s)
  }

  /** Every pass only exchanges two elements, so the shuffle is a permutation. */
  lemma {:induction false} ShuffleFromPermutes<T>(xs: seq<T>, i: int, s: Uint32)
    requires i < |xs|
    ensures |ShuffleFrom(xs, i, s).0| == |xs|
    ensures multiset(ShuffleFrom(xs, i, s).0) == multiset(xs)
    decreases i
  {
    if i > 0 {
      var s' := Step(s);
      ShuffleFromPermutes(Swap(xs, i, SwapPartner(s', i)), i - 1, s');
    }
  }

  /** The passes for positions i down to 1 draw exactly i values. */
  lemma {:induction false} ShuffleFromDraws<T>(xs: seq<T>, i: int, s: Uint32)
    requires i < |xs|
    ensures ShuffleFrom(xs, i, s).1 == Advance(s, if i < 0 then 0 else i)
    decreases i
  {
    if i > 0 {
      var s' := Step(s);
      var j := SwapPartner(s', i);
      var ys := Swap(xs, i, j);
      calc {
        ShuffleFrom(xs, i, s).1;
        ShuffleFrom(ys, i - 1, s').1;
        { ShuffleFromDraws(ys, i - 1, s'); }
        Advance(s', i - 1);
        Advance(s, i);
      }
    }
  }

  // ---------------------------------------------------------------------------
  // The generator object

  class SeededRandom {
    var seed: Uint32
    const initialSeed: Uint32

    constructor (str: JsString)
      ensures initialSeed == StringHash(str) && seed == initialSeed
    {
      var h := HashCode(str);
      initialSeed := h;
      seed := h;
    }

    /** The rolling hash, computed as the source does with a shift and a
        subtraction, agrees with its specification. */
    static method HashCode(str: JsString) returns (h: nat)
      ensures h == StringHash(str)
    {
      var hash := 0;
      for i := 0 to |str|
        invariant hash == HashState(str[..i])
      {
        var code := str[i];
        ghost var before := hash;
        hash := ToInt32(hash * 32) - hash + code;  // (hash << 5) - hash + char
        hash := ToInt32(hash);                     // hash & hash
        ShiftSubtractIsTimes31(before, code);
        assert str[..i + 1][..i] == str[..i];
      }
      assert str[..|str|] == str;
      h := Abs(hash);
    }

    method Reset()
      modifies this
      ensures seed == initialSeed
    {
      seed := initialSeed;
    }

    /** Advances the state and returns the numerator w of next() = w / 2^32,
        which lies in [0, 1) because w < 2^32. */
    method Next() returns (w: Uint32)
      modifies this
      ensures seed == Step(old(seed)) && w == seed
    {
      seed := (MULTIPLIER * seed + INCREMENT) % TWO_32;
      w := seed;
    }

    method NextInt(min: int, max: int) returns (n: int)
      modifies this
      ensures seed == Step(old(seed))
      ensures n == min + FloorScaled(seed, max - min)
      ensures min < max ==> min <= n < max
    {
      var w := Next();
      n := FloorScaled(w, max - min) + min;
    }

    /** Shuffles a copy of items; items itself is a value and is untouched. */
    method Shuffle<T>(items: seq<T>) returns (result: seq<T>)
      modifies this
      ensures (result, seed) == Shuffled(items, old(seed))
      ensures |result| == |items| && multiset(result) == multiset(items)
      ensures seed == Advance(old(seed), if |items| == 0 then 0 else |items| - 1)
    {
      var a := new T[|items|](k requires 0 <= k < |items| => items[k]);
      assert a[..] == items;
      var i := a.Length - 1;
      while i > 0
        invariant -1 <= i < a.Length
        invariant ShuffleFrom(a[..], i, seed) == Shuffled(items, old(seed))
      {
        ghost var before, s := a[..], seed;
        var w := Next();
        var j := FloorScaled(w, i + 1);  // Math.floor(this.next() * (i + 1))
        assert j == SwapPartner(w, i);
        a[i], a[j] := a[j], a[i];
        assert a[..] == Swap(before, i, j);
        assert ShuffleFrom(before, i, s) == ShuffleFrom(a[..], i - 1, seed);
        i := i - 1;
      }
      result := a[..];
      ShuffleFromPermutes(items, |items| - 1, old(seed));
      ShuffleFromDraws(items, |items| - 1, old(seed));
    }
  }

  /** k calls of next() on g. */
  method Draw(g: SeededRandom, k: nat) returns (ws: seq<Uint32>)
    modifies g
    ensures ws == Stream(old(g.seed), k) && g.seed == Advance(old(g.seed), k)
  {
    ws := [];
    ghost var s0 := g.seed;
    for i := 0 to k
      invariant ws + Stream(g.seed, k - i) == Stream(s0, k)
      invariant g.seed == Advance(s0, i)
    {
      ghost var before := g.seed;
      var w := g.Next();
      assert Stream(before, k - i) == [w] + Stream(w, k - i - 1);
      ws := ws + [w];
      AdvanceStep(s0, i);
    }
  }

  /** After reset() the generator replays exactly the values it produced
      after construction. */
  method ReplayAfterReset(str: JsString, k: nat) returns (first: seq<Uint32>, second: seq<Uint32>)
    ensures first == second == Stream(StringHash(str), k)
  {
    var g := new SeededRandom(str);
    first := Draw(g, k);
    g.Reset();
    second := Draw(g, k);
  }

  /** Two generators built from the same string produce the same values. */
  method SameSeedSameStream(str: JsString, k: nat) returns (xs: seq<Uint32>, ys: seq<Uint32>)
    ensures xs == ys == Stream(StringHash(str), k)
  {
    var g1 := new SeededRandom(str);
    var g2 := new SeededRandom(str);
    xs := Draw(g1, k);
    ys := Draw(g2, k);
  }
}
