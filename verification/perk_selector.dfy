/** The perk-selection engine: a catalog of perks, the set of names already
    handed out, and the two generators that make selections reproducible
    from a seed string. */
module Selector {
  import opened JsSemantics
  import Lcg
  import Mt

  /** A catalog entry; `kind` is the perk's `type` field. */
  datatype Perk = Perk(name: JsString, kind: JsString)

  /** The errors the engine throws, and the draw bound of the model. */
  datatype SelectError =
    | TooManyRequested(count: int, available: nat)
    | NoPerksOfType(kind: JsString)
    | EmptyArray
    | DrawLimit

  /** The unseeded draw loop repeats a draw that lands on a perk whose name
      is already used. This bound on such repeated draws is part of the model
      only: past it the model reports DrawLimit. */
  const MAX_SKIPPED_DRAWS: nat := 1_000_000

  // ---------------------------------------------------------------------------
  // Catalog bookkeeping

  /** The names of the perks of ps. */
  function Names(ps: seq<Perk>): (ns: set<JsString>)
    ensures forall p :: p in ps ==> p.name in ns
    ensures |ns| <= |ps|
    decreases |ps|
  {
    if ps == [] then {}
    else
      var init, last := ps[..|ps| - 1], ps[|ps| - 1];
      assert ps == init + [last];
      Names(init) + {last.name}
  }

  /** No two perks of ps share a name. */
  predicate DistinctNames(ps: seq<Perk>)
  {
    forall i, j :: 0 <= i < j < |ps| ==> ps[i].name != ps[j].name
  }

  /** A name that no perk of ps carries is not among its names. */
  lemma {:induction false} NameAbsent(ps: seq<Perk>, n: JsString)
    requires forall p :: p in ps ==> p.name != n
    ensures n !in Names(ps)
    decreases |ps|
  {
    if ps != [] {
      var init := ps[..|ps| - 1];
      assert forall p :: p in init ==> p in ps;
      NameAbsent(init, n);
    }
  }

  /** The names of perks drawn from ps are names of ps. */
  lemma {:induction false} NamesWithin(xs: seq<Perk>, ps: seq<Perk>)
    requires forall p :: p in xs ==> p in ps
    ensures Names(xs) <= Names(ps)
    decreases |xs|
  {
    if xs != [] {
      var init := xs[..|xs| - 1];
      assert forall p :: p in init ==> p in xs;
      NamesWithin(init, ps);
      assert xs[|xs| - 1] in xs;
    }
  }

  /** `perks.filter(perk => !usedPerks.has(perk.name))`. */
  function Unused(ps: seq<Perk>, used: set<JsString>): (avail: seq<Perk>)
    ensures forall p :: p in avail <==> p in ps && p.name !in used
    ensures |avail| <= |ps|
    decreases |ps|
  {
    if ps == [] then []
    else
      var init, last := ps[..|ps| - 1], ps[|ps| - 1];
      assert ps == init + [last];
      Unused(init, used) + (if last.name in used then [] else [last])
  }

  /** `perks.filter(p => p.type === kind && !exclude.includes(p.name))`. */
  function Matching(ps: seq<Perk>, kind: JsString, exclude: seq<JsString>): (ms: seq<Perk>)
    ensures forall p :: p in ms <==> p in ps && p.kind == kind && p.name !in exclude
    ensures |ms| <= |ps|
    decreases |ps|
  {
    if ps == [] then []
    else
      var init, last := ps[..|ps| - 1], ps[|ps| - 1];
      assert ps == init + [last];
      Matching(init, kind, exclude)
      + (if last.kind == kind && last.name !in exclude then [last] else [])
  }

  /** The perks selectSinglePerkOfType chooses among: those of the type whose
      names are not excluded or, when there are none, every perk of the type.
      It is empty exactly when the catalog has no perk of the type, and it
      honours the exclusion list whenever some perk of the type is not
      excluded. */
  function Pool(ps: seq<Perk>, kind: JsString, exclude: seq<JsString>): (pool: seq<Perk>)
    ensures forall p :: p in pool ==> p in ps && p.kind == kind
    ensures pool == [] <==> forall p :: p in ps ==> p.kind != kind
    ensures (exists p :: p in ps && p.kind == kind && p.name !in exclude)
            ==> forall p :: p in pool ==> p.name !in exclude
  {
    var candidates := Matching(ps, kind, exclude);
    if candidates != [] then
      assert candidates[0] in candidates;
      candidates
    else
      var fallback := Matching(ps, kind, []);
      assert fallback != [] ==> fallback[0] in fallback;
      fallback
  }

  /** `xs.splice(i, 1)`: xs without its element at i. */
  function RemoveAt<T>(xs: seq<T>, i: nat): (ys: seq<T>)
    requires i < |xs|
    ensures |ys| == |xs| - 1
    ensures multiset(ys) == multiset(xs) - multiset{xs[i]}
    ensures forall p :: p in ys ==> p in xs
    ensures forall k :: 0 <= k < |ys| ==> ys[k] == if k < i then xs[k] else xs[k + 1]
  {
    assert xs == xs[..i] + [xs[i]] + xs[i + 1..];
    xs[..i] + xs[i + 1..]
  }

  // ---------------------------------------------------------------------------
  // Lemmas about the bookkeeping

  /** Appending a perk whose name is new keeps the names distinct. */
  lemma DistinctAppend(ps: seq<Perk>, p: Perk)
    requires DistinctNames(ps) && p.name !in Names(ps)
    ensures DistinctNames(ps + [p]) && Names(ps + [p]) == Names(ps) + {p.name}
  {
    assert (ps + [p])[..|ps|] == ps;
    forall i | 0 <= i < |ps|
      ensures ps[i].name != p.name
    {
      assert ps[i] in ps;
    }
  }

  /** A prefix of a sequence with distinct names has distinct names. */
  lemma DistinctPrefix(ps: seq<Perk>, k: nat)
    requires k <= |ps|
    ensures DistinctNames(ps) ==> DistinctNames(ps[..k])
  {
    forall i, j | 0 <= i < j < k && DistinctNames(ps)
      ensures ps[..k][i].name != ps[..k][j].name
    {
      assert ps[..k][i] == ps[i] && ps[..k][j] == ps[j];
    }
  }

  /** The last perk's name does not occur earlier when names are distinct. */
  lemma DistinctLast(ps: seq<Perk>)
    requires ps != [] && DistinctNames(ps)
    ensures ps[|ps| - 1].name !in Names(ps[..|ps| - 1])
    ensures DistinctNames(ps[..|ps| - 1])
  {
    var init, last := ps[..|ps| - 1], ps[|ps| - 1];
    DistinctPrefix(ps, |ps| - 1);
    forall p | p in init
      ensures p.name != last.name
    {
      var k :| 0 <= k < |init| && init[k] == p;
      assert ps[k] == p;
    }
    NameAbsent(init, last.name);
  }

  /** Removing one perk keeps the names distinct, and no remaining perk has
      the removed perk's name. */
  lemma RemoveAtKeepsDistinct(ps: seq<Perk>, i: nat)
    requires i < |ps| && DistinctNames(ps)
    ensures DistinctNames(RemoveAt(ps, i))
    ensures forall p :: p in RemoveAt(ps, i) ==> p.name != ps[i].name
  {
    var qs := RemoveAt(ps, i);
    forall a, b | 0 <= a < b < |qs|
      ensures qs[a].name != qs[b].name
    {
      var pa, pb := if a < i then a else a + 1, if b < i then b else b + 1;
      assert qs[a] == ps[pa] && qs[b] == ps[pb] && pa < pb;
    }
    forall p | p in qs
      ensures p.name != ps[i].name
    {
      var k :| 0 <= k < |qs| && qs[k] == p;
      var pk := if k < i then k else k + 1;
      assert p == ps[pk] && pk != i;
      if pk < i {
        assert ps[pk].name != ps[i].name;
      } else {
        assert ps[i].name != ps[pk].name;
      }
    }
  }

  /** Filtering keeps the names distinct. */
  lemma {:induction false} UnusedKeepsDistinct(ps: seq<Perk>, used: set<JsString>)
    requires DistinctNames(ps)
    ensures DistinctNames(Unused(ps, used))
    decreases |ps|
  {
    if ps != [] {
      var init, last := ps[..|ps| - 1], ps[|ps| - 1];
      assert ps == init + [last];
      DistinctLast(ps);
      UnusedKeepsDistinct(init, used);
      if last.name !in used {
        var u := Unused(init, used);
        NameAbsent(u, last.name);
        DistinctAppend(u, last);
      }
    }
  }

  /** A name that no perk of ps carries does not affect the filter. */
  lemma {:induction false} UnusedIgnores(ps: seq<Perk>, used: set<JsString>, n: JsString)
    requires n !in Names(ps)
    ensures Unused(ps, used) == Unused(ps, used - {n})
    decreases |ps|
  {
    if ps != [] {
      var init, last := ps[..|ps| - 1], ps[|ps| - 1];
      assert ps == init + [last];
      assert last in ps;
      UnusedIgnores(init, used, n);
    }
  }

  /** With distinct names and every used name a catalog name, each used
      name accounts for exactly one catalog perk: the unused perks number
      |ps| - |used|. */
  lemma {:induction false} UnusedCount(ps: seq<Perk>, used: set<JsString>)
    requires DistinctNames(ps) && used <= Names(ps)
    ensures |Unused(ps, used)| == |ps| - |used|
    decreases |ps|
  {
    if ps != [] {
      var init, last := ps[..|ps| - 1], ps[|ps| - 1];
      assert ps == init + [last];
      DistinctLast(ps);
      var rest := used - {last.name};
      assert rest <= Names(init);
      UnusedCount(init, rest);
      UnusedIgnores(init, used, last.name);
      assert |Unused(ps, used)| == |Unused(init, used)| + (if last.name in used then 0 else 1);
      RemoveOneSize(used, last.name);
    }
  }

  lemma AddName(used: set<JsString>, ps: seq<Perk>, p: Perk)
    requires used <= Names(ps) && p in ps
    ensures used + {p.name} <= Names(ps)
  {
  }

  lemma UnionAddOne(a: set<JsString>, b: set<JsString>, x: JsString)
    ensures a + b + {x} == a + (b + {x})
  {
  }

  lemma RemoveOneSize(s: set<JsString>, x: JsString)
    ensures |s| == |s - {x}| + (if x in s then 1 else 0)
  {
    if x in s {
      assert s == (s - {x}) + {x};
    } else {
      assert s - {x} == s;
    }
  }

  lemma {:induction false} SubsetSize(a: set<JsString>, b: set<JsString>)
    ensures a <= b ==> |a| <= |b|
    decreases |a|
  {
    if a != {} && a <= b {
      var x :| x in a;
      SubsetSize(a - {x}, b - {x});
    }
  }

  /** One exchange keeps the names distinct. */
  lemma SwapKeepsDistinct(xs: seq<Perk>, i: nat, j: nat)
    requires i < |xs| && j < |xs| && DistinctNames(xs)
    ensures DistinctNames(Lcg.Swap(xs, i, j))
  {
    var ys := Lcg.Swap(xs, i, j);
    forall a, b | 0 <= a < b < |ys|
      ensures ys[a].name != ys[b].name
    {
      var pa := if a == i then j else if a == j then i else a;
      var pb := if b == i then j else if b == j then i else b;
      assert ys[a] == xs[pa] && ys[b] == xs[pb] && pa != pb;
      if pa < pb {
        assert xs[pa].name != xs[pb].name;
      } else {
        assert xs[pb].name != xs[pa].name;
      }
    }
  }

  /** The shuffle keeps the names distinct. */
  lemma {:induction false} ShuffleKeepsDistinct(xs: seq<Perk>, i: int, s: Uint32)
    requires i < |xs|
    ensures DistinctNames(xs) ==> DistinctNames(Lcg.ShuffleFrom(xs, i, s).0)
    decreases i
  {
    if i > 0 && DistinctNames(xs) {
      var s' := Lcg.Step(s);
      var j := Lcg.SwapPartner(s', i);
      SwapKeepsDistinct(xs, i, j);
      ShuffleKeepsDistinct(Lcg.Swap(xs, i, j), i - 1, s');
    }
  }

  /** A prefix of a permutation of ps holds perks of ps only, each at most
      as often as ps does. */
  lemma PermutationPrefix(xs: seq<Perk>, ps: seq<Perk>, k: nat)
    requires multiset(xs) == multiset(ps) && k <= |xs|
    ensures multiset(xs[..k]) <= multiset(ps)
    ensures forall p :: p in xs[..k] ==> p in ps
  {
    assert xs == xs[..k] + xs[k..];
    assert multiset(xs) == multiset(xs[..k]) + multiset(xs[k..]);
    forall p | p in xs[..k]
      ensures p in ps
    {
      assert p in multiset(xs[..k]);
      assert p in multiset(ps);
    }
  }

  /** The seeded result of selectRandomPerks: the catalog shuffled by the
      generator of the seed string, cut with `slice(0, count)`. It holds
      catalog perks only, each as often as the catalog does at most, and
      distinct names when the catalog's names are distinct. */
  function SeededSelection(ps: seq<Perk>, seed: JsString, count: int): (sel: seq<Perk>)
    ensures |sel| == SliceEnd(|ps|, count)
    ensures multiset(sel) <= multiset(ps)
    ensures forall p :: p in sel ==> p in ps
    ensures DistinctNames(ps) ==> DistinctNames(sel)
  {
    var h := Lcg.StringHash(seed);
    var shuffled := Lcg.Shuffled(ps, h).0;
    Lcg.ShuffleFromPermutes(ps, |ps| - 1, h);
    ShuffleKeepsDistinct(ps, |ps| - 1, h);
    var k := SliceEnd(|ps|, count);
    PermutationPrefix(shuffled, ps, k);
    DistinctPrefix(shuffled, k);
    shuffled[..k]
  }

  /** What a successful unseeded selection of count perks promises, given
      the used names before and after: count catalog perks (none for a
      count below one) with pairwise distinct names, every one of them now
      used. When the unused perks sufficed, none of them was used before and
      the used set grows by exactly their names; otherwise the used set was
      cleared first. */
  ghost predicate UnseededOutcome(ps: seq<Perk>, before: set<JsString>, count: int,
                                  sel: seq<Perk>, after: set<JsString>)
  {
    var base := if count > |Unused(ps, before)| then {} else before;
    && |sel| == (if count < 0 then 0 else count)
    && DistinctNames(sel)
    && (forall p :: p in sel ==> p in ps && p.name !in base)
    && after == base + Names(sel)
  }

  /** Where an unseeded draw driven by the string-seeded generator ends: the
      perks drawn, the used names, the generator's state, and whether the
      draw bound stopped it. */
  datatype DrawOutcome = DrawOutcome(selected: seq<Perk>, now: set<JsString>, seed: Uint32, exhausted: bool)

  /** The draw loop of the unseeded path from generator state s, with pool
      left to draw from, selected drawn so far, now the used names and
      skipped the repeated draws so far: each round takes the next value of
      the generator, scales it to an index into pool, and keeps the perk
      there (removing it from pool) unless its name is used. */
  function DrawFrom(pool: seq<Perk>, selected: seq<Perk>, now: set<JsString>, s: Uint32,
                    count: int, skipped: nat): (o: DrawOutcome)
    requires |pool| + |selected| >= count && skipped <= MAX_SKIPPED_DRAWS
    ensures !o.exhausted ==> |o.selected| == (if count > |selected| then count else |selected|)
    decreases count - |selected|, MAX_SKIPPED_DRAWS - skipped
  {
    if |selected| >= count then DrawOutcome(selected, now, s, false)
    else
      var s' := Lcg.Step(s);
      var index := FloorScaled(s', |pool|);
      var perk := pool[index];
      if perk.name !in now then
        DrawFrom(RemoveAt(pool, index), selected + [perk], now + {perk.name}, s', count, skipped)
      else if skipped == MAX_SKIPPED_DRAWS then DrawOutcome(selected, now, s', true)
      else DrawFrom(pool, selected, now, s', count, skipped + 1)
  }

  /** One round of DrawFrom, spelled out. */
  lemma DrawFromRound(pool: seq<Perk>, selected: seq<Perk>, now: set<JsString>, s: Uint32,
                      count: int, skipped: nat)
    requires |pool| + |selected| >= count && skipped <= MAX_SKIPPED_DRAWS && |selected| < count
    ensures var s' := Lcg.Step(s);
            var index := FloorScaled(s', |pool|);
            var perk := pool[index];
            DrawFrom(pool, selected, now, s, count, skipped) ==
              if perk.name !in now then DrawFrom(RemoveAt(pool, index), selected + [perk], now + {perk.name}, s', count, skipped)
              else if skipped == MAX_SKIPPED_DRAWS then DrawOutcome(selected, now, s', true)
              else DrawFrom(pool, selected, now, s', count, skipped + 1)
  {
  }

  /** When pool holds distinct names none of which is used, every round
      keeps its perk: the draw takes exactly the missing rounds, one
      generator step each, and never reaches the draw bound. */
  lemma {:induction false} DrawFromClean(pool: seq<Perk>, selected: seq<Perk>, now: set<JsString>, s: Uint32, count: int)
    requires |pool| + |selected| >= count
    requires DistinctNames(pool) && forall p :: p in pool ==> p.name !in now
    ensures var o := DrawFrom(pool, selected, now, s, count, 0);
            !o.exhausted && o.seed == Lcg.Advance(s, if count > |selected| then count - |selected| else 0)
    decreases count - |selected|
  {
    if |selected| < count {
      var s' := Lcg.Step(s);
      var index := FloorScaled(s', |pool|);
      var perk := pool[index];
      RemoveAtKeepsDistinct(pool, index);
      var rest := RemoveAt(pool, index);
      forall p | p in rest
        ensures p.name !in now + {perk.name}
      {
        assert p in pool;
      }
      DrawFromClean(rest, selected + [perk], now + {perk.name}, s', count);
    }
  }

  /** What an unseeded draw promises at every point: the drawn perks come
      from available, their names are pairwise distinct and none of them
      is in base, and the used names are exactly base and the drawn names. */
  ghost predicate DrawSound(available: seq<Perk>, base: set<JsString>, selected: seq<Perk>, now: set<JsString>)
  {
    && DistinctNames(selected) && now == base + Names(selected)
    && forall p :: p in selected ==> p in available && p.name !in base
  }

  /** Keeping the perk at index of pool, whose name is not used, keeps the
      draw sound. */
  lemma KeepRound(available: seq<Perk>, base: set<JsString>, pool: seq<Perk>, selected: seq<Perk>,
                  now: set<JsString>, index: nat)
    requires index < |pool| && pool[index].name !in now && pool[index] in available
    requires DrawSound(available, base, selected, now)
    ensures DrawSound(available, base, selected + [pool[index]], now + {pool[index].name})
  {
    var perk := pool[index];
    assert perk.name !in Names(selected);
    DistinctAppend(selected, perk);
    UnionAddOne(base, Names(selected), perk.name);
  }

  /** Whatever the generator yields, a draw from a pool of available perks
      stays sound. */
  lemma {:induction false} DrawFromSound(available: seq<Perk>, base: set<JsString>,
                                         pool: seq<Perk>, selected: seq<Perk>, now: set<JsString>,
                                         s: Uint32, count: int, skipped: nat)
    requires |pool| + |selected| >= count && skipped <= MAX_SKIPPED_DRAWS
    requires forall p :: p in pool ==> p in available
    requires DrawSound(available, base, selected, now)
    ensures var o := DrawFrom(pool, selected, now, s, count, skipped);
            DrawSound(available, base, o.selected, o.now)
    decreases count - |selected|, MAX_SKIPPED_DRAWS - skipped
  {
    if |selected| < count {
      DrawFromRound(pool, selected, now, s, count, skipped);
      var s' := Lcg.Step(s);
      var index := FloorScaled(s', |pool|);
      var perk := pool[index];
      if perk.name !in now {
        KeepRound(available, base, pool, selected, now, index);
        DrawFromSound(available, base, RemoveAt(pool, index), selected + [perk], now + {perk.name}, s', count, skipped);
      } else if skipped < MAX_SKIPPED_DRAWS {
        DrawFromSound(available, base, pool, selected, now, s', count, skipped + 1);
      }
    }
  }

  /** The whole unseeded path with a generator at state s: the draw runs over
      the unused perks, or, when fewer than count remain, over those followed
      by the whole catalog with no name used. */
  function UnseededDraw(ps: seq<Perk>, used: set<JsString>, s: Uint32, count: int): (o: DrawOutcome)
    requires count <= |ps|
    ensures o.exhausted || |o.selected| == (if count < 0 then 0 else count)
  {
    var available := Unused(ps, used);
    if count > |available| then DrawFrom(available + ps, [], {}, s, count, 0)
    else DrawFrom(available, [], used, s, count, 0)
  }

  /** With distinct catalog names and enough unused perks, the unseeded path
      draws exactly count values from the generator and always succeeds. */
  lemma UnseededDrawClean(ps: seq<Perk>, used: set<JsString>, s: Uint32, count: int)
    requires count <= |Unused(ps, used)| && DistinctNames(ps)
    ensures var o := UnseededDraw(ps, used, s, count);
            !o.exhausted && o.seed == Lcg.Advance(s, if count < 0 then 0 else count)
  {
    UnusedKeepsDistinct(ps, used);
    DrawFromClean(Unused(ps, used), [], used, s, count);
  }

  // ---------------------------------------------------------------------------
  // The engine

  class PerkSelector {
    const perks: seq<Perk>
    var usedPerks: set<JsString>
    var rng: Lcg.SeededRandom?
    var lastSeed: JsString

    /** Only catalog names are ever used, and the generator, once there is
        one, is the generator of the last seed. */
    ghost predicate Valid()
      reads this
    {
      && usedPerks <= Names(perks)
      && (rng == null ==> lastSeed == [])
      && (rng != null ==> rng.initialSeed == Lcg.StringHash(lastSeed))
    }

    constructor (catalog: seq<Perk>)
      ensures Valid()
      ensures perks == catalog && usedPerks == {} && rng == null && lastSeed == []
    {
      perks := catalog;
      usedPerks := {};
      rng := null;
      lastSeed := [];
    }

    /** A new seed clears the used names and installs a fresh generator; the
        same seed again rewinds the existing generator. Either way the
        generator then stands at the seed's hash. */
    method SetSeed(seed: JsString)
      requires Valid()
      modifies this, rng
      ensures Valid() && lastSeed == seed
      ensures old(lastSeed) != seed ==> usedPerks == {} && rng != null && fresh(rng)
      ensures old(lastSeed) == seed ==> usedPerks == old(usedPerks) && rng == old(rng)
      ensures rng != null ==> rng.seed == rng.initialSeed == Lcg.StringHash(seed)
      ensures seed != [] ==> rng != null
    {
      if lastSeed != seed {
        usedPerks := {};
        lastSeed := seed;
        rng := new Lcg.SeededRandom(seed);
      } else if rng != null {
        rng.Reset();
      }
    }

    /** count perks: with a seed, a prefix of the seeded shuffle of the whole
        catalog; without one, a draw without replacement across calls that
        starts over once too few unused perks remain. */
    method SelectRandomPerks(count: int, seed: Option<JsString>)
      returns (r: Result<seq<Perk>, SelectError>)
      requires Valid()
      modifies this, rng
      ensures Valid() && (rng == old(rng) || fresh(rng))
      ensures Truthy(seed) ==> lastSeed == seed.value && rng != null
      ensures !Truthy(seed) ==> lastSeed == old(lastSeed) && rng == old(rng)
      ensures r == Err(TooManyRequested(count, |perks|)) <==> count > |perks|
      ensures count > |perks| ==>
                usedPerks == if Truthy(seed) && seed.value != old(lastSeed) then {} else old(usedPerks)
      ensures Truthy(seed) && count <= |perks| ==>
                r == Ok(SeededSelection(perks, seed.value, count)) && usedPerks == {}
                && rng.seed == Lcg.Shuffled(perks, Lcg.StringHash(seed.value)).1
      ensures !Truthy(seed) && r.Ok? ==> UnseededOutcome(perks, old(usedPerks), count, r.value, usedPerks)
      ensures !Truthy(seed) && r.Err? && count <= |perks| ==> r.error == DrawLimit
      ensures !Truthy(seed) && DistinctNames(perks) && count <= |Unused(perks, old(usedPerks))| ==> r.Ok?
      ensures !Truthy(seed) && count <= |perks| && old(rng) != null ==>
                var o := UnseededDraw(perks, old(usedPerks), old(rng.seed), count);
                rng.seed == o.seed && usedPerks == o.now && r == (if o.exhausted then Err(DrawLimit) else Ok(o.selected))
      ensures count > |perks| && Truthy(seed) ==> rng.seed == Lcg.StringHash(seed.value)
      ensures count > |perks| && !Truthy(seed) && rng != null ==> rng.seed == old(rng.seed)
    {
      if Truthy(seed) {
        SetSeed(seed.value);
      }
      if count > |perks| {
        return Err(TooManyRequested(count, |perks|));
      }
      if rng != null && Truthy(seed) {
        usedPerks := {};
        var shuffled := rng.Shuffle(perks);
        return Ok(shuffled[..SliceEnd(|shuffled|, count)]);
      }
      r := SelectUnseeded(count);
    }

    /** The unseeded path of selectRandomPerks. Each draw takes the next
        value of the generator when there is one and an arbitrary index
        otherwise; a draw that lands on a used name is repeated. */
    method SelectUnseeded(count: int) returns (r: Result<seq<Perk>, SelectError>)
      requires Valid() && count <= |perks|
      modifies this, rng
      ensures Valid() && rng == old(rng) && lastSeed == old(lastSeed)
      ensures r.Ok? ==> UnseededOutcome(perks, old(usedPerks), count, r.value, usedPerks)
      ensures r.Err? ==> r.error == DrawLimit
      ensures DistinctNames(perks) && count <= |Unused(perks, old(usedPerks))| ==> r.Ok?
      ensures old(rng) != null ==>
                var o := UnseededDraw(perks, old(usedPerks), old(rng.seed), count);
                rng.seed == o.seed && usedPerks == o.now && r == (if o.exhausted then Err(DrawLimit) else Ok(o.selected))
    {
      var selected, used, exhausted := DrawUnseeded(rng, perks, usedPerks, count);
      usedPerks := used;
      if exhausted {
        return Err(DrawLimit);
      }
      r := Ok(selected);
    }

    /** The filter, the refill and the draw of the unseeded path, on the
        catalog ps and the used names before the call. */
    static method DrawUnseeded(g: Lcg.SeededRandom?, ps: seq<Perk>, before: set<JsString>, count: int)
      returns (selected: seq<Perk>, now: set<JsString>, exhausted: bool)
      requires count <= |ps|
      modifies g
      ensures before <= Names(ps) ==> now <= Names(ps)
      ensures !exhausted ==> UnseededOutcome(ps, before, count, selected, now)
      ensures DistinctNames(ps) && count <= |Unused(ps, before)| ==> !exhausted
      ensures g != null ==> DrawOutcome(selected, now, g.seed, exhausted) == UnseededDraw(ps, before, old(g.seed), count)
    {
      var used := before;
      var available := Unused(ps, used);
      if count > |available| {
        used := {};
        available := available + ps;
      } else if DistinctNames(ps) {
        UnusedKeepsDistinct(ps, used);
      }
      selected, now, exhausted := DrawUnused(g, available, used, count);
      assert forall p :: p in selected ==> p in ps;
      NamesWithin(selected, ps);
    }

    /** The draw loop of the unseeded path: count perks with names outside
        used, drawn from available with the generator g when there is one
        and with Math.random otherwise. A draw that lands on a used name is
        repeated; when available holds distinct names none of which is used,
        no draw is ever repeated. */
    static method DrawUnused(g: Lcg.SeededRandom?, available: seq<Perk>, used: set<JsString>, count: int)
      returns (selected: seq<Perk>, now: set<JsString>, exhausted: bool)
      requires count <= |available|
      modifies g
      ensures now == used + Names(selected) && DistinctNames(selected)
      ensures forall p :: p in selected ==> p in available && p.name !in used
      ensures !exhausted ==> |selected| == (if count < 0 then 0 else count)
      ensures DistinctNames(available) && (forall p :: p in available ==> p.name !in used) ==> !exhausted
      ensures g != null ==> DrawOutcome(selected, now, g.seed, exhausted) == DrawFrom(available, [], used, old(g.seed), count, 0)
      ensures g != null && DistinctNames(available) && (forall p :: p in available ==> p.name !in used) ==>
                g.seed == Lcg.Advance(old(g.seed), if count < 0 then 0 else count)
    {
      if g != null {
        if DistinctNames(available) && forall p :: p in available ==> p.name !in used {
          DrawFromClean(available, [], used, g.seed, count);
        }
        DrawFromSound(available, used, available, [], used, g.seed, count, 0);
        selected, now, exhausted := DrawWithGenerator(g, available, used, count);
      } else {
        selected, now, exhausted := DrawWithMathRandom(available, used, count);
      }
    }

    /** The draw loop with the generator g: each round takes its next value,
        scaled to the length of what is left to draw from. */
    static method DrawWithGenerator(g: Lcg.SeededRandom, available: seq<Perk>, used: set<JsString>, count: int)
      returns (selected: seq<Perk>, now: set<JsString>, exhausted: bool)
      requires count <= |available|
      modifies g
      ensures DrawOutcome(selected, now, g.seed, exhausted) == DrawFrom(available, [], used, old(g.seed), count, 0)
    {
      var pool := available;
      selected, now, exhausted := [], used, false;
      var skipped: nat := 0;
      while |selected| < count
        invariant |pool| + |selected| >= count && skipped <= MAX_SKIPPED_DRAWS && !exhausted
        invariant DrawFrom(pool, selected, now, g.seed, count, skipped) == DrawFrom(available, [], used, old(g.seed), count, 0)
        decreases count - |selected|, MAX_SKIPPED_DRAWS - skipped
      {
        DrawFromRound(pool, selected, now, g.seed, count, skipped);
        var w := g.Next();
        var index := FloorScaled(w, |pool|);  // Math.floor(next() * length)
        var perk := pool[index];
        if perk.name !in now {
          selected := selected + [perk];
          now := now + {perk.name};
          pool := RemoveAt(pool, index);
        } else {
          if skipped == MAX_SKIPPED_DRAWS {
            exhausted := true;
            return;
          }
          skipped := skipped + 1;
        }
      }
    }

    /** The draw loop without a generator: each round takes an arbitrary
        index into what is left to draw from. */
    static method DrawWithMathRandom(available: seq<Perk>, used: set<JsString>, count: int)
      returns (selected: seq<Perk>, now: set<JsString>, exhausted: bool)
      requires count <= |available|
      ensures now == used + Names(selected) && DistinctNames(selected)
      ensures forall p :: p in selected ==> p in available && p.name !in used
      ensures !exhausted ==> |selected| == (if count < 0 then 0 else count)
      ensures DistinctNames(available) && (forall p :: p in available ==> p.name !in used) ==> !exhausted
    {
      ghost var clean := DistinctNames(available) && forall p :: p in available ==> p.name !in used;
      var pool := available;
      selected, now, exhausted := [], used, false;
      var skipped: nat := 0;
      while |selected| < count
        invariant |selected| <= (if count < 0 then 0 else count)
        invariant |pool| + |selected| >= count
        invariant forall p :: p in pool ==> p in available
        invariant DrawSound(available, used, selected, now)
        invariant clean ==> skipped == 0 && DistinctNames(pool)
        invariant clean ==> forall p :: p in pool ==> p.name !in now
        invariant skipped <= MAX_SKIPPED_DRAWS && !exhausted
        decreases count - |selected|, MAX_SKIPPED_DRAWS - skipped
      {
        var index: nat :| index < |pool|;  // Math.floor(Math.random() * length)
        var perk := pool[index];
        if perk.name !in now {
          KeepRound(available, used, pool, selected, now, index);
          if clean {
            RemoveAtKeepsDistinct(pool, index);
          }
          selected := selected + [perk];
          now := now + {perk.name};
          pool := RemoveAt(pool, index);
        } else {
          if skipped == MAX_SKIPPED_DRAWS {
            exhausted := true;
            return;
          }
          skipped := skipped + 1;
        }
      }
    }

    /** A perk of the given type, avoiding the excluded names when the
        type has other perks; with a seed, the choice is fixed by the first
        output of a Mersenne Twister built from the seed's hash. */
    method SelectSinglePerkOfType(perkType: JsString, seed: Option<JsString>, excludePerks: seq<JsString>)
      returns (r: Result<Perk, SelectError>)
      requires Valid()
      modifies this
      ensures Valid() && rng == old(rng) && lastSeed == old(lastSeed)
      ensures r.Err? <==> forall p :: p in perks ==> p.kind != perkType
      ensures r.Err? ==> r.error == NoPerksOfType(perkType) && usedPerks == old(usedPerks)
      ensures r.Ok? ==> r.value in Pool(perks, perkType, excludePerks)
      ensures r.Ok? && Matching(perks, perkType, excludePerks) != [] ==>
                usedPerks == old(usedPerks) + {r.value.name}
      ensures Matching(perks, perkType, excludePerks) == [] ==> usedPerks == old(usedPerks)
      ensures Truthy(seed) && r.Ok? ==>
                var pool := Pool(perks, perkType, excludePerks);
                r.value == pool[FloorScaled(Mt.FirstOutput(Lcg.StringHash(seed.value)), |pool|)]
    {
      var candidates := Matching(perks, perkType, excludePerks);
      if |candidates| == 0 {
        var fallback := Matching(perks, perkType, []);
        if |fallback| == 0 {
          return Err(NoPerksOfType(perkType));
        }
        r := PickSeeded(fallback, seed);
        return;
      }
      r := PickSeeded(candidates, seed);
      if r.Ok? {
        AddName(usedPerks, perks, r.value);
        usedPerks := usedPerks + {r.value.name};
      }
    }

    /** The choice among pool: with a seed, at index getRandomInt(0, |pool|)
        of a Mersenne Twister built from the seed's hash, that is at the
        first output of that generator scaled to the pool's length. */
    static method PickSeeded(pool: seq<Perk>, seed: Option<JsString>) returns (r: Result<Perk, SelectError>)
      ensures r.Err? <==> pool == []
      ensures r.Err? ==> r.error == EmptyArray
      ensures r.Ok? ==> r.value in pool
      ensures Truthy(seed) && r.Ok? ==>
                r.value == pool[FloorScaled(Mt.FirstOutput(Lcg.StringHash(seed.value)), |pool|)]
    {
      var seedRng: Mt.MersenneTwister? := null;
      if Truthy(seed) {
        var h := HashSeed(seed.value);
        seedRng := new Mt.MersenneTwister(h);
      }
      r := GetRandomElement(pool, seedRng);
    }

    /** The hash of the seed for the Mersenne Twister: the same rolling hash
        as the string-seeded generator's. */
    static method HashSeed(seed: JsString) returns (h: nat)
      ensures h == Lcg.StringHash(seed)
    {
      h := Lcg.SeededRandom.HashCode(seed);
    }

    /** An element of a non-empty array, at the index getRandomInt(0, length)
        of the generator when there is one and at an arbitrary index
        otherwise. */
    static method GetRandomElement<T>(elements: seq<T>, rng: Mt.MersenneTwister?)
      returns (r: Result<T, SelectError>)
      requires rng != null ==> rng.Valid()
      modifies if rng != null then {rng, rng.mt} else {}
      ensures r.Err? <==> elements == []
      ensures r.Err? ==> r.error == EmptyArray
      ensures r.Ok? ==> r.value in elements
      ensures rng != null && elements == [] ==> unchanged(rng, rng.mt)
      ensures rng != null && elements != [] ==>
                && rng.Valid()
                && rng.State() == Mt.Extract(old(rng.State())).0
                && r.value == elements[FloorScaled(Mt.Extract(old(rng.State())).1, |elements|)]
    {
      if |elements| == 0 {
        return Err(EmptyArray);
      }
      var index: int;
      if rng != null {
        index := rng.GetRandomInt(0, |elements|);
      } else {
        index :| 0 <= index < |elements|;
      }
      return Ok(elements[index]);
    }

    method ResetUsedPerks()
      requires Valid()
      modifies this
      ensures Valid() && rng == old(rng) && lastSeed == old(lastSeed)
      ensures usedPerks == {} && AvailablePerkCount() == |perks|
    {
      usedPerks := {};
    }

    /** The catalog size less the number of used names: never negative, and
        the number of catalog perks not yet used when the catalog's names are
        distinct. */
    function AvailablePerkCount(): (n: int)
      reads this
      ensures Valid() ==> n >= 0
      ensures Valid() && DistinctNames(perks) ==> n == |Unused(perks, usedPerks)|
    {
      assert Valid() && DistinctNames(perks) ==> |perks| - |usedPerks| == |Unused(perks, usedPerks)| by {
        if Valid() && DistinctNames(perks) {
          UnusedCount(perks, usedPerks);
        }
      }
      SubsetSize(usedPerks, Names(perks));
      |perks| - |usedPerks|
    }
  }

  /** Two calls with the same non-empty seed and count return the same
      perks, even with an unseeded selection between them. */
  method SeededSelectionIsReproducible(catalog: seq<Perk>, seed: JsString, count: int)
    returns (first: Result<seq<Perk>, SelectError>, second: Result<seq<Perk>, SelectError>)
    requires seed != []
    ensures first == second
    ensures count <= |catalog| ==> first == Ok(SeededSelection(catalog, seed, count))
  {
    var selector := new PerkSelector(catalog);
    first := selector.SelectRandomPerks(count, Some(seed));
    var _ := selector.SelectRandomPerks(1, None);
    second := selector.SelectRandomPerks(count, Some(seed));
  }

  /** Two engines given the same non-empty seed pick the same perks on
      their first unseeded selection, since their draws follow the same
      generator; with distinct catalog names and count within the catalog,
      the selection succeeds. */
  method UnseededSelectionIsReproducible(catalog: seq<Perk>, seed: JsString, count: int)
    returns (first: Result<seq<Perk>, SelectError>, second: Result<seq<Perk>, SelectError>)
    requires seed != []
    ensures first == second
    ensures DistinctNames(catalog) && count <= |catalog| ==> first.Ok?
  {
    var a := new PerkSelector(catalog);
    a.SetSeed(seed);
    first := a.SelectRandomPerks(count, None);
    var b := new PerkSelector(catalog);
    b.SetSeed(seed);
    second := b.SelectRandomPerks(count, None);
    if DistinctNames(catalog) {
      UnusedCount(catalog, {});
    }
  }
}
