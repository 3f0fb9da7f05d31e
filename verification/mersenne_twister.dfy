/** The Mersenne Twister the perk-selection engine uses for single-perk
    regeneration: a 624-word state, the in-place twist, and tempering. Every
    state word is a 32-bit pattern; where the source stores a word as a signed
    number (the result of `^` or `&`), the bit pattern is the same. */
module Mt {
  import opened JsSemantics

  const N: int := 624
  const M: int := 397
  const MATRIX_A: bv32 := 0x9908_B0DF    // 2567483615
  const UPPER_MASK: bv32 := 0x8000_0000
  const LOWER_MASK: bv32 := 0x7FFF_FFFF
  const TEMPER_B: bv32 := 0x9D2C_5680    // 2636928640
  const TEMPER_C: bv32 := 0xEFC6_0000    // 4022730752
  const INIT_MULTIPLIER: int := 1812433253

  // ---------------------------------------------------------------------------
  // Seeding, computed in double precision as the source does

  /** 2^53: every integer of at most this magnitude is a double. */
  const TWO_53: int := 0x20_0000_0000_0000

  /** The number of binary digits of n. */
  function BitLength(n: nat): nat
  {
    if n == 0 then 0 else 1 + BitLength(n / 2)
  }

  /** floor(n / 2^e). */
  function ShiftRight(n: nat, e: nat): nat
  {
    if e == 0 then n else ShiftRight(n / 2, e - 1)
  }

  /** m * 2^e. */
  function ShiftLeft(m: nat, e: nat): nat
  {
    if e == 0 then m else 2 * ShiftLeft(m, e - 1)
  }

  /** Whether the e lowest binary digits of n are all zero. */
  predicate LowBitsZero(n: nat, e: nat)
  {
    e == 0 || (n % 2 == 0 && LowBitsZero(n / 2, e - 1))
  }

  /** The magnitude of the double nearest to n: n rounded to 53 significant
      bits, ties to even. */
  function RoundMagnitude(n: nat): (r: nat)
    ensures n <= TWO_53 ==> r == n
  {
    if n <= TWO_53 || BitLength(n) <= 53 then
      n
    else
      var e := BitLength(n) - 53;           // the digits that do not fit
      var q := ShiftRight(n, e);            // the 53 digits that do
      var half := ShiftRight(n, e - 1) % 2 == 1;
      var sticky := !LowBitsZero(n, e - 1);
      ShiftLeft(if half && (sticky || q % 2 == 1) then q + 1 else q, e)
  }

  /** The double that an exact integer result rounds to. Integers up to 2^53
      in magnitude are represented exactly. */
  function RoundToDouble(x: int): (r: int)
    ensures -TWO_53 <= x <= TWO_53 ==> r == x
  {
    if x < 0 then 0 - RoundMagnitude(-x) else RoundMagnitude(x)
  }

  /** Entry i of the initial state from entry i - 1:
      (1812433253 * (prev ^ (prev >>> 30)) + i) >>> 0, where `^` yields a signed
      32-bit number, the product and the sum are rounded to doubles, and `>>> 0`
      reduces the result modulo 2^32. */
  function InitWord(prev: bv32, i: nat): bv32
  {
    var x := ToInt32((prev ^ (prev >> 30)) as int);
    ToUint32(RoundToDouble(RoundToDouble(INIT_MULTIPLIER * x) + i)) as bv32
  }

  /** The first n entries of the initial state for seed. */
  ghost function InitWords(seed: int, n: nat): (ws: seq<bv32>)
    requires 1 <= n
    ensures |ws| == n
    decreases n, 1, seed
  {
    if n == 1 then [ToUint32(seed) as bv32]
    else InitWords(seed, n - 1) + [InitEntry(seed, n - 1)]
  }

  /** Entry i >= 1 of the initial state for seed, derived from entry i - 1. */
  ghost function InitEntry(seed: int, i: nat): bv32
    requires 1 <= i
    decreases i, 2, seed
  {
    InitWord(InitWords(seed, i)[i - 1], i)
  }

  lemma InitWordsFirst(seed: int)
    ensures InitWords(seed, 1) == [ToUint32(seed) as bv32]
  {
  }

  /** Entry 0 of the state is the seed reduced modulo 2^32. */
  lemma {:induction false} InitWordsHead(seed: int, n: nat)
    requires 1 <= n
    ensures InitWords(seed, n)[0] == ToUint32(seed) as bv32
    decreases n
  {
    if n > 1 {
      InitWordsHead(seed, n - 1);
    }
  }

  ghost function InitState(seed: int): (ws: seq<bv32>)
    ensures |ws| == N
  {
    InitWords(seed, N)
  }

  // ---------------------------------------------------------------------------
  // The twist

  /** The top bit of `current` joined to the low 31 bits of `next`. */
  function TwistInput(current: bv32, next: bv32): bv32
  {
    (current & UPPER_MASK) + (next & LOWER_MASK)
  }

  /** `far` xor the joined word shifted right by one. */
  function TwistShift(far: bv32, y: bv32): bv32
  {
    far ^ (y >> 1)
  }

  /** The extra xor with the twist matrix, applied when the joined word is odd. */
  function TwistMatrix(w: bv32): bv32
  {
    w ^ MATRIX_A
  }

  /** The word the twist stores at a position whose word is `current`, whose
      successor's word is `next` and whose word M positions on is `far`. */
  function TwistWord(current: bv32, next: bv32, far: bv32): bv32
  {
    var y := TwistInput(current, next);
    var w := TwistShift(far, y);
    if y & 1 != 0 then TwistMatrix(w) else w
  }

  /** The state after the twist loop has rewritten positions 0 .. i - 1 in
      place: each position reads its successor and the word M positions on as
      they stand at that moment, which for positions near the end are already
      rewritten. */
  function TwistSteps(s: seq<bv32>, i: nat): (t: seq<bv32>)
    requires |s| == N && i <= N
    ensures |t| == N
    decreases i, s
  {
    if i == 0 then s
    else
      var t := TwistSteps(s, i - 1);
      t[i - 1 := TwistWord(t[i - 1], t[i % N], t[(i - 1 + M) % N])]
  }

  function Twist(s: seq<bv32>): (t: seq<bv32>)
    requires |s| == N
    ensures |t| == N
  {
    TwistSteps(s, N)
  }

  /** The MT19937 recurrence: x_0 .. x_623 are the words of s and
      x_(k+624) = x_(k+397) xor A(upper bit of x_k, lower 31 bits of x_(k+1)). */
  function Recurrence(s: seq<bv32>, k: nat): bv32
    requires |s| == N && k < 2 * N
    decreases k
  {
    if k < N then s[k]
    else TwistWord(Recurrence(s, k - N), Recurrence(s, k - N + 1), Recurrence(s, k - N + M))
  }

  /** Pass i - 1 of the loop stores the twisted word at position i - 1 ... */
  lemma TwistStepsStores(s: seq<bv32>, i: nat)
    requires |s| == N && 0 < i <= N
    ensures var t := TwistSteps(s, i - 1);
            TwistSteps(s, i)[i - 1] == TwistWord(t[i - 1], t[i % N], t[(i - 1 + M) % N])
  {
  }

  /** ... and leaves every other position as it was. */
  lemma TwistStepsKeeps(s: seq<bv32>, i: nat, j: nat)
    requires |s| == N && 0 < i <= N && j < N && j != i - 1
    ensures TwistSteps(s, i)[j] == TwistSteps(s, i - 1)[j]
  {
  }

  /** One step of the recurrence past the first 624 words. */
  lemma RecurrenceNext(s: seq<bv32>, k: nat)
    requires |s| == N && k < N
    ensures Recurrence(s, N + k)
            == TwistWord(Recurrence(s, k), Recurrence(s, k + 1), Recurrence(s, k + M))
  {
  }

  /** After the loop has rewritten positions below i, position j holds the
      next word of the recurrence if j < i and is untouched otherwise. */
  lemma {:induction false} TwistStepsAt(s: seq<bv32>, i: nat, j: nat)
    requires |s| == N && i <= N && j < N
    ensures TwistSteps(s, i)[j] == if j < i then Recurrence(s, N + j) else s[j]
    decreases i, 2
  {
    if i > 0 {
      if j == i - 1 {
        TwistStepsNewWord(s, i);
      } else {
        TwistStepsKeeps(s, i, j);
        TwistStepsAt(s, i - 1, j);
      }
    }
  }

  /** Pass i - 1 of the loop stores word N + i - 1 of the recurrence. */
  lemma {:induction false} TwistStepsNewWord(s: seq<bv32>, i: nat)
    requires |s| == N && 0 < i <= N
    ensures TwistSteps(s, i)[i - 1] == Recurrence(s, N + i - 1)
    decreases i, 1
  {
    var t := TwistSteps(s, i - 1);
    TwistStepsStores(s, i);
    TwistStepsAt(s, i - 1, i - 1);
    TwistReadsNext(s, i);
    TwistReadsFar(s, i);
    RecurrenceNext(s, i - 1);
    assert TwistSteps(s, i)[i - 1]
        == TwistWord(Recurrence(s, i - 1), Recurrence(s, i), Recurrence(s, i - 1 + M));
  }

  /** Pass i - 1 reads word i of the recurrence as its successor: position i
      is still untouched, or, for the last pass, position 0 already holds
      word N. */
  lemma {:induction false} TwistReadsNext(s: seq<bv32>, i: nat)
    requires |s| == N && 0 < i <= N
    ensures TwistSteps(s, i - 1)[i % N] == Recurrence(s, i)
    decreases i, 0
  {
    if i == N {
      assert i % N == 0;
      TwistStepsAt(s, i - 1, 0);
    } else {
      assert i % N == i;
      TwistStepsAt(s, i - 1, i);
    }
  }

  /** Pass i - 1 reads word i - 1 + M of the recurrence M positions on: that
      position is still untouched, or it has wrapped around to a position the
      loop already rewrote. */
  lemma {:induction false} TwistReadsFar(s: seq<bv32>, i: nat)
    requires |s| == N && 0 < i <= N
    ensures TwistSteps(s, i - 1)[(i - 1 + M) % N] == Recurrence(s, i - 1 + M)
    decreases i, 0
  {
    if i - 1 + M < N {
      assert (i - 1 + M) % N == i - 1 + M;
      TwistStepsAt(s, i - 1, i - 1 + M);
    } else {
      assert (i - 1 + M) % N == i - 1 + M - N;
      TwistStepsAt(s, i - 1, i - 1 + M - N);
    }
  }

  /** The in-place twist computes the next 624 words of the MT19937 recurrence. */
  lemma TwistIsRecurrence(s: seq<bv32>, j: nat)
    requires |s| == N && j < N
    ensures Twist(s)[j] == Recurrence(s, N + j)
  {
    TwistStepsAt(s, N, j);
  }

  // ---------------------------------------------------------------------------
  // Tempering

  /** The four tempering steps, in the order they are applied. */
  function TemperShift11(y: bv32): bv32
  {
    y ^ (y >> 11)
  }

  function TemperShift7(y: bv32): bv32
  {
    y ^ ((y << 7) & TEMPER_B)
  }

  function TemperShift15(y: bv32): bv32
  {
    y ^ ((y << 15) & TEMPER_C)
  }

  function TemperShift18(y: bv32): bv32
  {
    y ^ (y >> 18)
  }

  /** Tempering step k (0 to 3) of the sequence above. */
  function TemperStep(y: bv32, k: nat): bv32
    requires k < 4
  {
    match k
    case 0 => TemperShift11(y)
    case 1 => TemperShift7(y)
    case 2 => TemperShift15(y)
    case _ => TemperShift18(y)
  }

  /** The first k tempering steps applied to y. */
  function TemperSteps(y: bv32, k: nat): bv32
    requires k <= 4
    decreases k
  {
    if k == 0 then y else TemperStep(TemperSteps(y, k - 1), k - 1)
  }

  /** The output transform of a state word: all four tempering steps. */
  function Temper(y: bv32): bv32
  {
    TemperSteps(y, 4)
  }

  // ---------------------------------------------------------------------------
  // The generator as a value

  datatype MtState = MtState(words: seq<bv32>, index: nat)

  predicate ValidState(st: MtState)
  {
    |st.words| == N && st.index < N
  }

  /** One extract_number call: the state afterwards and the output. */
  function Extract(st: MtState): (res: (MtState, Uint32))
    requires ValidState(st)
    ensures ValidState(res.0)
  {
    var words := if st.index == 0 then Twist(st.words) else st.words;
    (MtState(words, (st.index + 1) % N), Temper(words[st.index]) as int)
  }

  /** k successive extract_number calls: the final state and the outputs. */
  function Run(st: MtState, k: nat): (res: (MtState, seq<Uint32>))
    requires ValidState(st)
    ensures ValidState(res.0) && |res.1| == k
    decreases k
  {
    if k == 0 then (st, [])
    else
      var (mid, outs) := Run(st, k - 1);
      var (next, out) := Extract(mid);
      (next, outs + [out])
  }

  /** The effect of one extract_number call on the state. */
  lemma ExtractState(st: MtState)
    requires ValidState(st)
    ensures Extract(st).0
            == MtState(if st.index == 0 then Twist(st.words) else st.words, (st.index + 1) % N)
  {
  }

  /** The cursor arithmetic of one more call after p calls. */
  lemma ScheduleStep(p: nat)
    ensures (p % N + 1) % N == (p + 1) % N
  {
    var q, r := p / N, p % N;
    assert p == q * N + r;
    if r == N - 1 {
      assert p + 1 == (q + 1) * N;
    } else {
      assert p + 1 == q * N + (r + 1);
    }
  }

  /** Starting at index 0 (a freshly built generator), the cursor is at
      k mod 624 after k calls. */
  lemma {:induction false} RunCursor(st: MtState, k: nat)
    requires ValidState(st) && st.index == 0
    ensures Run(st, k).0.index == k % N
    decreases k
  {
    if k > 0 {
      RunCursor(st, k - 1);
      RunStep(st, k - 1);
      ExtractState(Run(st, k - 1).0);
      ScheduleStep(k - 1);
    }
  }

  /** Call k + 1 of a freshly built generator twists the state exactly when
      k is a multiple of 624: on the first call and on every 624th call after
      it. */
  lemma RunSchedule(st: MtState, k: nat)
    requires ValidState(st) && st.index == 0
    ensures Run(st, k + 1).0.words
            == if k % N == 0 then Twist(Run(st, k).0.words) else Run(st, k).0.words
  {
    RunCursor(st, k);
    RunStep(st, k);
    ExtractState(Run(st, k).0);
  }

  lemma RunStep(st: MtState, k: nat)
    requires ValidState(st)
    ensures Run(st, k + 1).0 == Extract(Run(st, k).0).0
  {
  }

  /** The first output of a generator built from seed. */
  ghost function FirstOutput(seed: int): Uint32
  {
    Extract(MtState(InitState(seed), 0)).1
  }

  /** The first output depends on three initial words only: those at
      positions 0, 1 and 397. */
  lemma FirstOutputFromThreeWords(seed: int)
    ensures var s := InitState(seed);
            FirstOutput(seed) == Temper(TwistWord(s[0], s[1], s[M])) as int
  {
    var s := InitState(seed);
    FirstExtract(s);
  }

  lemma FirstExtract(s: seq<bv32>)
    requires |s| == N
    ensures Extract(MtState(s, 0)).1 == Temper(TwistWord(s[0], s[1], s[M])) as int
  {
    TwistEarlyWord(s, 0);
    var w := Twist(s)[0];
    assert Extract(MtState(s, 0)).1 == Temper(w) as int;
  }

  /** The twist's words below N - M are computed from untouched words only:
      word j, its successor, and the word M positions on. */
  lemma TwistEarlyWord(s: seq<bv32>, j: nat)
    requires |s| == N && j < N - M
    ensures Twist(s)[j] == TwistWord(s[j], s[j + 1], s[j + M])
  {
    TwistIsRecurrence(s, j);
    RecurrenceNext(s, j);
  }

  // ---------------------------------------------------------------------------
  // The generator object

  class MersenneTwister {
    const mt: array<bv32>
    var index: int

    ghost predicate Valid()
      reads this
    {
      mt.Length == N && 0 <= index < N
    }

    ghost function State(): MtState
      reads this, mt
      requires Valid()
    {
      MtState(mt[..], index)
    }

    constructor (seed: int)
      ensures Valid() && fresh(mt)
      ensures index == 0 && mt[..] == InitState(seed)
      ensures mt[0] == ToUint32(seed) as bv32
    {
      var a := InitialWords(seed);
      mt := a;
      index := 0;
    }

    /** The constructor's seeding: word 0 is the seed, and each later word is
        derived from the one before it. */
    static method InitialWords(seed: int) returns (a: array<bv32>)
      ensures fresh(a) && a[..] == InitState(seed)
      ensures a[0] == ToUint32(seed) as bv32
    {
      a := new bv32[N];
      a[0] := ToUint32(seed) as bv32;  // seed >>> 0
      InitWordsFirst(seed);
      assert a[..1] == [a[0]];
      FillWords(a, seed);
      InitWordsHead(seed, N);
    }

    /** The seeding loop, for entries 1 to 623. */
    static method FillWords(a: array<bv32>, seed: int)
      requires a.Length == N && a[..1] == InitWords(seed, 1)
      modifies a
      ensures a[..] == InitState(seed)
    {
      for i := 1 to N
        invariant a[..i] == InitWords(seed, i)
      {
        a[i] := SeedingStep(seed, a[i - 1], i);
        assert a[..i + 1] == a[..i] + [a[i]];
      }
      assert a[..] == a[..N];
    }

    /** One pass of the seeding loop: entry i from entry i - 1. */
    static method SeedingStep(ghost seed: int, prev: bv32, i: nat) returns (w: bv32)
      requires 1 <= i && prev == InitWords(seed, i)[i - 1]
      ensures InitWords(seed, i + 1) == InitWords(seed, i) + [w]
    {
      w := InitWord(prev, i);
      assert w == InitEntry(seed, i);
    }

    /** Tempers the word at the cursor, twisting the whole state first when
        the cursor is at 0, and advances the cursor modulo 624. */
    method ExtractNumber() returns (r: Uint32)
      requires Valid()
      modifies this, mt
      ensures Valid()
      ensures mt[..] == if old(index) == 0 then Twist(old(mt[..])) else old(mt[..])
      ensures index == (old(index) + 1) % N
      ensures r == Temper(mt[old(index)]) as int
      ensures (State(), r) == Extract(old(State()))
    {
      if index == 0 {
        GenerateNumbers();
      }
      var y := mt[index];
      ghost var word := y;
      y := TemperShift11(y);
      assert y == TemperSteps(word, 1);
      y := TemperShift7(y);
      assert y == TemperSteps(word, 2);
      y := TemperShift15(y);
      assert y == TemperSteps(word, 3);
      y := TemperShift18(y);
      assert y == TemperSteps(word, 4);
      index := (index + 1) % N;
      r := y as int;  // y >>> 0
    }

    /** The twist, in place, in index order. */
    method GenerateNumbers()
      requires Valid()
      modifies mt
      ensures mt[..] == Twist(old(mt[..]))
    {
      for i := 0 to N
        invariant mt[..] == TwistSteps(old(mt[..]), i)
      {
        var y := TwistInput(mt[i], mt[(i + 1) % N]);
        mt[i] := TwistShift(mt[(i + M) % N], y);
        if y & 1 != 0 {  // y % 2 !== 0
          mt[i] := TwistMatrix(mt[i]);
        }
      }
    }

    /** The numerator w of random() = w / 2^32, which lies in [0, 1). */
    method Random() returns (w: Uint32)
      requires Valid()
      modifies this, mt
      ensures Valid()
      ensures (State(), w) == Extract(old(State()))
    {
      w := ExtractNumber();
    }

    method GetRandomInt(min: int, max: int) returns (n: int)
      requires Valid()
      modifies this, mt
      ensures Valid()
      ensures State() == Extract(old(State())).0
      ensures n == min + FloorScaled(Extract(old(State())).1, max - min)
      ensures min < max ==> min <= n < max
    {
      var w := Random();
      n := FloorScaled(w, max - min) + min;
    }
  }

  /** The first k outputs of a generator built from seed: a function of the
      seed alone, so two generators built from the same seed agree. */
  method SeedOutputs(seed: int, k: nat) returns (xs: seq<Uint32>)
    ensures xs == Run(MtState(InitState(seed), 0), k).1
  {
    var g := new MersenneTwister(seed);
    ghost var st0 := g.State();
    xs := [];
    for i := 0 to k
      invariant g.Valid() && g.State() == Run(st0, i).0 && xs == Run(st0, i).1
    {
      var w := g.Random();
      xs := xs + [w];
    }
  }

  /** Two generators built from the same seed produce the same outputs. */
  method SameSeedSameOutputs(seed: int, k: nat) returns (xs: seq<Uint32>, ys: seq<Uint32>)
    ensures |xs| == |ys| == k && xs == ys
  {
    xs := SeedOutputs(seed, k);
    ys := SeedOutputs(seed, k);
  }
}
