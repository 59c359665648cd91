/** The pool allocator of the trichinosis jornada (handleGeneratePools in
    src/components/Triquinosis.tsx): tropas are walked in id order, their
    animals get consecutive order numbers from 1 and are cut into pools of the
    jornada's pool size, and a trailing pool of fewer than 4 animals is merged
    into its predecessor. */
module PoolAllocator {
  import opened Records

  /** 20 animals per pool in a normal jornada, 10 otherwise. */
  function PoolSize(kind: Kind): int {
    if kind == Normal then 20 else 10
  }

  /** The animals a tropa feeds into the pools: its count when positive, none
      otherwise (the consuming loop never runs for a count <= 0). */
  function Animals(t: Tropa): nat {
    if t.totalAnimals > 0 then t.totalAnimals else 0
  }

  function Sum(ts: seq<Tropa>): nat {
    if ts == [] then 0 else Sum(ts[..|ts| - 1]) + Animals(ts[|ts| - 1])
  }

  predicate LastPositive(ts: seq<Tropa>) {
    |ts| > 0 && ts[|ts| - 1].totalAnimals > 0
  }

  /** How many animals the drafted pools cover: all of them when the last tropa
      has animals, otherwise only the full pools (the open partial pool is
      never closed). */
  function Covered(ts: seq<Tropa>, size: int): int
    requires size > 0
  {
    if LastPositive(ts) then Sum(ts) else Sum(ts) - Sum(ts) % size
  }

  // ---------------------------------------------------------------------
  // Reference definition of the compositions

  /** The parts a tropa with `n` animals contributes when it starts on a pool
      already holding `fill` animals: first what fits in that pool, then one
      part per following pool. */
  function Pieces(tag: string, n: int, fill: int, size: int): seq<Part>
    requires 0 <= fill < size
    decreases n
  {
    if n <= 0 then []
    else
      var take := if n < size - fill then n else size - fill;
      [Part(tag, take)] + Pieces(tag, n - take, if fill + take == size then 0 else fill + take, size)
  }

  /** The parts of all tropas in order; tropa i starts on a pool holding
      (animals before it) mod size. */
  function Parts(ts: seq<Tropa>, size: int): seq<Part>
    requires size > 0
  {
    if ts == [] then []
    else
      var init := ts[..|ts| - 1];
      var t := ts[|ts| - 1];
      Parts(init, size) + Pieces(t.tropaNumber, t.totalAnimals, Sum(init) % size, size)
  }

  /** A tropa's parts all carry its number, each fits in one pool, and together
      they hold exactly the tropa's animals. */
  lemma {:induction false} PiecesOfTropa(tag: string, n: int, fill: int, size: int)
    requires 0 <= fill < size
    ensures var ps := Pieces(tag, n, fill, size);
      && SumCounts(ps) == Animals(Tropa(0, tag, n, 0))
      && (forall i :: 0 <= i < |ps| ==> ps[i].tropa == tag && 1 <= ps[i].count <= size)
      && (|ps| > 0 <==> n > 0)
    decreases n
  {
    if n > 0 {
      var take := if n < size - fill then n else size - fill;
      var fill' := if fill + take == size then 0 else fill + take;
      PiecesOfTropa(tag, n - take, fill', size);
      SumCountsAppend([Part(tag, take)], Pieces(tag, n - take, fill', size));
      assert [Part(tag, take)][..0] == [];
    }
  }

  /** The parts of all tropas hold all their animals, each part at least one. */
  lemma {:induction false} PartsCoverTropas(ts: seq<Tropa>, size: int)
    requires size > 0
    ensures SumCounts(Parts(ts, size)) == Sum(ts)
    ensures PositiveParts(Parts(ts, size))
    decreases |ts|
  {
    if ts != [] {
      var init := ts[..|ts| - 1];
      var t := ts[|ts| - 1];
      PartsCoverTropas(init, size);
      PiecesOfTropa(t.tropaNumber, t.totalAnimals, Sum(init) % size, size);
      SumCountsAppend(Parts(init, size), Pieces(t.tropaNumber, t.totalAnimals, Sum(init) % size, size));
    }
  }

  // ---------------------------------------------------------------------
  // Shape of a pool list

  /** A drafted pool at position k: its number, weight, range and composition
      agree with its animal count. */
  predicate WellFormed(d: Draft, k: nat) {
    && d.number == PoolNumber(k + 1)
    && d.weight == 5 * d.sampleCount
    && d.rangeEnd == d.rangeStart + d.sampleCount - 1
    && SumCounts(d.composition) == d.sampleCount
    && PositiveParts(d.composition)
  }

  /** Ranges start at 1 and each pool starts right after its predecessor. */
  predicate Chained(ds: seq<Draft>) {
    && (|ds| > 0 ==> ds[0].rangeStart == 1)
    && (forall i :: 0 < i < |ds| ==> ds[i].rangeStart == ds[i - 1].rangeEnd + 1)
  }

  predicate Drafted(ds: seq<Draft>) {
    (forall i :: 0 <= i < |ds| ==> WellFormed(ds[i], i)) && Chained(ds)
  }

  predicate Full(ds: seq<Draft>, size: int) {
    forall i :: 0 <= i < |ds| ==> ds[i].sampleCount == size
  }

  lemma {:induction false} SumOfFull(ds: seq<Draft>, size: int)
    requires Full(ds, size)
    ensures SumSamples(ds) == |ds| * size
    decreases |ds|
  {
    if ds != [] {
      SumOfFull(ds[..|ds| - 1], size);
    }
  }

  lemma MulAtLeast(a: int, b: int)
    requires a >= 1 && b > 0
    ensures a * b >= b
  {
  }

  lemma RemainderOf(q: int, size: int, r: int)
    requires size > 0 && 0 <= r < size
    ensures (q * size + r) % size == r
  {
    var x := q * size + r;
    var k, m := x / size, x % size;
    assert x == k * size + m;
    assert (k - q) * size == r - m;
    if k > q {
      MulAtLeast(k - q, size);
    }
    if k < q {
      assert (q - k) * size == m - r;
      MulAtLeast(q - k, size);
    }
  }

  /** The order number the next pool starts at. */
  function NextOrder(ds: seq<Draft>): int {
    if ds == [] then 1 else ds[|ds| - 1].rangeEnd + 1
  }

  /** The allocation state between two steps: the closed pools are well formed,
      each but the last is full, and the open pool holds `poolAnimals < size`
      animals described by `composition`. */
  ghost predicate Progress(drafts: seq<Draft>, poolAnimals: int, composition: seq<Part>,
                           globalOrder: int, size: int)
  {
    && 0 <= poolAnimals < size
    && SumCounts(composition) == poolAnimals
    && PositiveParts(composition)
    && Drafted(drafts)
    && globalOrder == NextOrder(drafts)
    && (forall i :: 0 <= i < |drafts| ==> 1 <= drafts[i].sampleCount <= size)
    && (forall i :: 0 <= i < |drafts| - 1 ==> drafts[i].sampleCount == size)
  }

  /** Closing the open pool appends a well-formed draft at the next number and
      order, and leaves an empty open pool. */
  lemma ClosePool(drafts: seq<Draft>, d: Draft, size: int)
    requires Drafted(drafts) && Full(drafts, size)
    requires WellFormed(d, |drafts|) && d.rangeStart == NextOrder(drafts)
    requires 1 <= d.sampleCount <= size
    ensures Progress(drafts + [d], 0, [], d.rangeEnd + 1, size)
    ensures d.sampleCount == size ==> Full(drafts + [d], size)
  {
    var r := drafts + [d];
    forall i | 0 <= i < |r|
      ensures WellFormed(r[i], i) && 1 <= r[i].sampleCount <= size
      ensures i < |r| - 1 ==> r[i].sampleCount == size
    {
      if i < |drafts| {
        assert r[i] == drafts[i];
      }
    }
    forall i | 0 < i < |r|
      ensures r[i].rangeStart == r[i - 1].rangeEnd + 1
    {
      if i < |drafts| {
        assert r[i] == drafts[i] && r[i - 1] == drafts[i - 1];
      }
    }
  }

  /** Regrouping a concatenation, so that proofs need not rediscover it. */
  lemma Regroup<T>(f: seq<T>, c: seq<T>, p: seq<T>, x: seq<T>)
    ensures f + c + (p + x) == f + (c + p) + x
    ensures f + c + (p + x) == f + (c + p) + [] + x
  {
    assert f + (c + p) + [] == f + (c + p);
  }

  lemma PiecesStep(tag: string, n: int, fill: int, size: int)
    requires 0 <= fill < size && n > 0
    ensures var take := if n < size - fill then n else size - fill;
      Pieces(tag, n, fill, size)
        == [Part(tag, take)] + Pieces(tag, n - take, if fill + take == size then 0 else fill + take, size)
  {
  }

  lemma PartsSnoc(ts: seq<Tropa>, k: nat, size: int)
    requires size > 0 && k < |ts|
    ensures Parts(ts[..k + 1], size)
         == Parts(ts[..k], size) + Pieces(ts[k].tropaNumber, ts[k].totalAnimals, Sum(ts[..k]) % size, size)
    ensures Sum(ts[..k + 1]) == Sum(ts[..k]) + Animals(ts[k])
  {
    assert ts[..k + 1][..k] == ts[..k];
  }

  /** The invariant of the inner loop: after taking animals of `tropa` from a
      start state (d0, a0, c0), `remaining` are left and what was appended to
      the closed pools and the open pool is the prefix of the tropa's parts. */
  ghost predicate Taking(tropa: Tropa, isLastTropa: bool, size: int,
                         d0: seq<Draft>, a0: int, c0: seq<Part>,
                         remaining: int, d: seq<Draft>, a: int, c: seq<Part>, g: int)
    requires 0 <= a0 < size
  {
    && Progress(d, a, c, g, size)
    && 0 <= a < size
    && (tropa.totalAnimals > 0 ==> 0 <= remaining <= tropa.totalAnimals)
    && (tropa.totalAnimals <= 0 ==> remaining == tropa.totalAnimals)
    && a + SumSamples(d) == a0 + SumSamples(d0) + Animals(tropa) - (if remaining > 0 then remaining else 0)
    && (Full(d, size) || (isLastTropa && remaining == 0 && tropa.totalAnimals > 0))
    && (isLastTropa && remaining == 0 && tropa.totalAnimals > 0 ==> a == 0 && c == [])
    && Flatten(d0) + c0 + Pieces(tropa.tropaNumber, tropa.totalAnimals, a0, size)
       == Flatten(d) + c + Pieces(tropa.tropaNumber, remaining, a, size)
  }

  /** A round of the inner loop that leaves the open pool open keeps the
      invariant. */
  lemma TakingKeep(tropa: Tropa, isLastTropa: bool, size: int,
                   d0: seq<Draft>, a0: int, c0: seq<Part>,
                   remaining: int, d: seq<Draft>, a: int, c: seq<Part>, g: int, taking: int,
                   r': int, a': int, c': seq<Part>)
    requires 0 <= a0 < size && remaining > 0
    requires Taking(tropa, isLastTropa, size, d0, a0, c0, remaining, d, a, c, g)
    requires taking == if remaining < size - a then remaining else size - a
    requires a + taking != size && !(isLastTropa && remaining == taking)
    requires r' == remaining - taking && a' == a + taking && c' == c + [Part(tropa.tropaNumber, taking)]
    ensures Taking(tropa, isLastTropa, size, d0, a0, c0, r', d, a', c', g)
  {
    var tag := tropa.tropaNumber;
    PiecesStep(tag, remaining, a, size);
    SumCountsAppend(c, [Part(tag, taking)]);
    Regroup(Flatten(d), c, [Part(tag, taking)], Pieces(tag, remaining - taking, a + taking, size));
  }

  /** Closing the open pool moves its parts and the piece just taken into the
      closed pools; the rest of the tropa starts a new empty pool. */
  lemma ClosedParts(tag: string, size: int, remaining: int, a: int, taking: int,
                    d: seq<Draft>, c: seq<Part>, pool: Draft)
    requires 0 <= a < size && remaining > 0
    requires taking == if remaining < size - a then remaining else size - a
    requires a + taking == size || remaining == taking
    requires pool.composition == c + [Part(tag, taking)]
    ensures Flatten(d) + c + Pieces(tag, remaining, a, size)
         == Flatten(d + [pool]) + [] + Pieces(tag, remaining - taking, 0, size)
  {
    FlattenSnoc(d, pool);
    var rest := Pieces(tag, remaining - taking, 0, size);
    assert Pieces(tag, remaining, a, size) == [Part(tag, taking)] + rest by {
      PiecesStep(tag, remaining, a, size);
      if a + taking != size {
        assert remaining - taking == 0;
      }
    }
    Regroup(Flatten(d), c, [Part(tag, taking)], rest);
  }

  /** Closing the open pool with `taking` more animals keeps the allocation
      state, with an empty open pool. */
  lemma ClosedProgress(d: seq<Draft>, a: int, c: seq<Part>, g: int, size: int, tag: string, taking: int)
    requires Progress(d, a, c, g, size) && Full(d, size)
    requires 0 < taking && a + taking <= size
    ensures var pool := Draft(PoolNumber(|d| + 1), a + taking, (a + taking) * 5, g, g + (a + taking) - 1,
                              c + [Part(tag, taking)]);
      && Progress(d + [pool], 0, [], g + (a + taking), size)
      && (a + taking == size ==> Full(d + [pool], size))
  {
    var pool := Draft(PoolNumber(|d| + 1), a + taking, (a + taking) * 5, g, g + (a + taking) - 1,
                      c + [Part(tag, taking)]);
    SumCountsAppend(c, [Part(tag, taking)]);
    ClosePool(d, pool, size);
  }

  /** A round of the inner loop that closes the open pool keeps the
      invariant. */
  lemma TakingClose(tropa: Tropa, isLastTropa: bool, size: int,
                    d0: seq<Draft>, a0: int, c0: seq<Part>,
                    remaining: int, d: seq<Draft>, a: int, c: seq<Part>, g: int, taking: int,
                    r': int, d': seq<Draft>, g': int)
    requires 0 <= a0 < size && remaining > 0
    requires Taking(tropa, isLastTropa, size, d0, a0, c0, remaining, d, a, c, g)
    requires taking == if remaining < size - a then remaining else size - a
    requires a + taking == size || (isLastTropa && remaining == taking)
    requires r' == remaining - taking && g' == g + (a + taking)
    requires d' == d + [Draft(PoolNumber(|d| + 1), a + taking, (a + taking) * 5,
                              g, g + (a + taking) - 1, c + [Part(tropa.tropaNumber, taking)])]
    ensures Taking(tropa, isLastTropa, size, d0, a0, c0, r', d', 0, [], g')
  {
    var tag := tropa.tropaNumber;
    var pool := Draft(PoolNumber(|d| + 1), a + taking, (a + taking) * 5, g, g + (a + taking) - 1,
                      c + [Part(tag, taking)]);
    ClosedProgress(d, a, c, g, size, tag, taking);
    ClosedParts(tag, size, remaining, a, taking, d, c, pool);
  }

  /** One round of the inner loop: take `min(remaining, space)` animals into
      the open pool, and close it when it is full or when the last tropa is
      exhausted. */
  ghost predicate Step(tag: string, isLastTropa: bool, size: int,
                       r: int, d: seq<Draft>, a: int, c: seq<Part>, g: int,
                       r': int, d': seq<Draft>, a': int, c': seq<Part>, g': int)
  {
    var taking := if r < size - a then r else size - a;
    && r' == r - taking
    && if a + taking == size || (isLastTropa && r' == 0) then
         && d' == d + [Draft(PoolNumber(|d| + 1), a + taking, (a + taking) * 5,
                             g, g + (a + taking) - 1, c + [Part(tag, taking)])]
         && a' == 0 && c' == [] && g' == g + (a + taking)
       else
         d' == d && a' == a + taking && c' == c + [Part(tag, taking)] && g' == g
  }

  lemma TakingStep(tropa: Tropa, isLastTropa: bool, size: int,
                   d0: seq<Draft>, a0: int, c0: seq<Part>,
                   r: int, d: seq<Draft>, a: int, c: seq<Part>, g: int,
                   r': int, d': seq<Draft>, a': int, c': seq<Part>, g': int)
    requires 0 <= a0 < size && r > 0
    requires Taking(tropa, isLastTropa, size, d0, a0, c0, r, d, a, c, g)
    requires Step(tropa.tropaNumber, isLastTropa, size, r, d, a, c, g, r', d', a', c', g')
    ensures Taking(tropa, isLastTropa, size, d0, a0, c0, r', d', a', c', g')
  {
    var taking := if r < size - a then r else size - a;
    if a + taking == size || (isLastTropa && r' == 0) {
      TakingClose(tropa, isLastTropa, size, d0, a0, c0, r, d, a, c, g, taking, r', d', g');
    } else {
      TakingKeep(tropa, isLastTropa, size, d0, a0, c0, r, d, a, c, g, taking, r', a', c');
    }
  }

  /** The inner loop starts from its own start state. */
  lemma TakingStart(tropa: Tropa, isLastTropa: bool, size: int,
                    d0: seq<Draft>, a0: int, c0: seq<Part>, g0: int)
    requires Progress(d0, a0, c0, g0, size) && Full(d0, size)
    ensures Taking(tropa, isLastTropa, size, d0, a0, c0, tropa.totalAnimals, d0, a0, c0, g0)
  {
  }

  /** When tropa k is exhausted, what was added is all of its parts, and the
      state is the drafting state of one more tropa. */
  lemma TakingDone(ts: seq<Tropa>, k: nat, size: int,
                   d0: seq<Draft>, a0: int, c0: seq<Part>, g0: int,
                   remaining: int, d: seq<Draft>, a: int, c: seq<Part>, g: int)
    requires size > 0 && k < |ts| && remaining <= 0
    requires Drafting(ts, k, size, d0, a0, c0, g0)
    requires Taking(ts[k], k == |ts| - 1, size, d0, a0, c0, remaining, d, a, c, g)
    ensures Drafting(ts, k + 1, size, d, a, c, g)
  {
    var tropa := ts[k];
    assert Pieces(tropa.tropaNumber, remaining, a, size) == [];
    assert Flatten(d) + c + [] == Flatten(d) + c;
    DraftingStep(ts, k, size, d0, a0, c0, g0, d, a, c, g);
  }

  /** The invariant of the outer loop, after the first k tropas. */
  ghost predicate Drafting(ts: seq<Tropa>, k: nat, size: int,
                           drafts: seq<Draft>, poolAnimals: int, composition: seq<Part>, globalOrder: int)
    requires size > 0 && k <= |ts|
  {
    && Progress(drafts, poolAnimals, composition, globalOrder, size)
    && poolAnimals + SumSamples(drafts) == Sum(ts[..k])
    && (Full(drafts, size) || (k == |ts| && LastPositive(ts)))
    && (k == |ts| && LastPositive(ts) ==> poolAnimals == 0 && composition == [])
    && Flatten(drafts) + composition == Parts(ts[..k], size)
  }

  /** Before tropa k the open pool holds (animals so far) mod size. */
  lemma DraftingFill(ts: seq<Tropa>, k: nat, size: int,
                     drafts: seq<Draft>, poolAnimals: int, composition: seq<Part>, globalOrder: int)
    requires size > 0 && k < |ts|
    requires Drafting(ts, k, size, drafts, poolAnimals, composition, globalOrder)
    ensures Full(drafts, size)
    ensures poolAnimals == Sum(ts[..k]) % size
  {
    SumOfFull(drafts, size);
    RemainderOf(|drafts|, size, poolAnimals);
  }

  /** Taking all of tropa k keeps the outer invariant. */
  lemma DraftingStep(ts: seq<Tropa>, k: nat, size: int,
                     d0: seq<Draft>, a0: int, c0: seq<Part>, g0: int,
                     d1: seq<Draft>, a1: int, c1: seq<Part>, g1: int)
    requires size > 0 && k < |ts|
    requires Drafting(ts, k, size, d0, a0, c0, g0)
    requires Progress(d1, a1, c1, g1, size)
    requires a1 + SumSamples(d1) == a0 + SumSamples(d0) + Animals(ts[k])
    requires Flatten(d1) + c1 == Flatten(d0) + c0 + Pieces(ts[k].tropaNumber, ts[k].totalAnimals, a0, size)
    requires Full(d1, size) || (k == |ts| - 1 && ts[k].totalAnimals > 0)
    requires k == |ts| - 1 && ts[k].totalAnimals > 0 ==> a1 == 0 && c1 == []
    ensures Drafting(ts, k + 1, size, d1, a1, c1, g1)
  {
    DraftingFill(ts, k, size, d0, a0, c0, g0);
    PartsSnoc(ts, k, size);
    if k == |ts| - 1 {
      assert ts[..k + 1] == ts;
    }
  }

  /** One round of the outer loop: the animals of tropa `tIdx` go into the
      open pool `min(remaining, space)` at a time; the pool is closed when it
      is full, or when this is the last tropa and it is exhausted. Afterwards
      the state is the drafting state of one more tropa. */
  method TakeFromTropa(ts: seq<Tropa>, tIdx: nat, size: int,
                       drafts0: seq<Draft>, poolAnimals0: int, composition0: seq<Part>, globalOrder0: int)
    returns (drafts: seq<Draft>, poolAnimals: int, composition: seq<Part>, globalOrder: int)
    requires size > 0 && tIdx < |ts|
    requires Drafting(ts, tIdx, size, drafts0, poolAnimals0, composition0, globalOrder0)
    ensures Drafting(ts, tIdx + 1, size, drafts, poolAnimals, composition, globalOrder)
  {
    var tropa := ts[tIdx];
    var isLastTropa := tIdx == |ts| - 1;
    drafts, poolAnimals, composition, globalOrder := drafts0, poolAnimals0, composition0, globalOrder0;
    var remainingFromTropa := tropa.totalAnimals;
    DraftingFill(ts, tIdx, size, drafts0, poolAnimals0, composition0, globalOrder0);
    TakingStart(tropa, isLastTropa, size, drafts0, poolAnimals0, composition0, globalOrder0);
    while remainingFromTropa > 0
      invariant Taking(tropa, isLastTropa, size, drafts0, poolAnimals0, composition0,
                       remainingFromTropa, drafts, poolAnimals, composition, globalOrder)
    {
      ghost var r, d, a, c, g := remainingFromTropa, drafts, poolAnimals, composition, globalOrder;
      var spaceInPool := size - poolAnimals;
      var taking := if remainingFromTropa < spaceInPool then remainingFromTropa else spaceInPool;
      composition := composition + [Part(tropa.tropaNumber, taking)];
      poolAnimals := poolAnimals + taking;
      remainingFromTropa := remainingFromTropa - taking;

      var isTropaEmpty := remainingFromTropa == 0;
      if poolAnimals == size || (isLastTropa && isTropaEmpty) {
        drafts := drafts + [Draft(PoolNumber(|drafts| + 1), poolAnimals, poolAnimals * 5,
                                  globalOrder, globalOrder + poolAnimals - 1, composition)];
        globalOrder := globalOrder + poolAnimals;
        poolAnimals := 0;
        composition := [];
      }
      TakingStep(tropa, isLastTropa, size, drafts0, poolAnimals0, composition0, r, d, a, c, g,
                 remainingFromTropa, drafts, poolAnimals, composition, globalOrder);
    }
    TakingDone(ts, tIdx, size, drafts0, poolAnimals0, composition0, globalOrder0,
               remainingFromTropa, drafts, poolAnimals, composition, globalOrder);
  }

  /** Before the first tropa nothing is drafted and the open pool is empty. */
  lemma DraftingStart(ts: seq<Tropa>, size: int)
    requires size > 0
    ensures Drafting(ts, 0, size, [], 0, [], 1)
  {
    assert ts[..0] == [];
  }

  /** The allocation loop as the source writes it. Before the tail merge every
      pool but the last holds exactly `size` animals; pools are numbered,
      weighed and ranged consecutively; and the compositions, read in pool
      order, are the tropas' parts in tropa order. When the last tropa has no
      animals the open partial pool is never closed, so only the full pools
      are covered. */
  method DraftPools(ts: seq<Tropa>, size: int) returns (drafts: seq<Draft>)
    requires size > 0
    ensures Drafted(drafts)
    ensures forall i :: 0 <= i < |drafts| ==> 1 <= drafts[i].sampleCount <= size
    ensures forall i :: 0 <= i < |drafts| - 1 ==> drafts[i].sampleCount == size
    ensures SumSamples(drafts) == Covered(ts, size)
    ensures Flatten(drafts) <= Parts(ts, size)
    ensures LastPositive(ts) ==> Flatten(drafts) == Parts(ts, size)
  {
    drafts := [];
    var poolAnimals := 0;
    var composition: seq<Part> := [];
    var globalOrder := 1;
    DraftingStart(ts, size);
    for tIdx := 0 to |ts|
      invariant Drafting(ts, tIdx, size, drafts, poolAnimals, composition, globalOrder)
    {
      drafts, poolAnimals, composition, globalOrder :=
        TakeFromTropa(ts, tIdx, size, drafts, poolAnimals, composition, globalOrder);
    }
    DraftingDone(ts, size, drafts, poolAnimals, composition, globalOrder);
  }

  lemma DraftingDone(ts: seq<Tropa>, size: int,
                     drafts: seq<Draft>, poolAnimals: int, composition: seq<Part>, globalOrder: int)
    requires size > 0
    requires Drafting(ts, |ts|, size, drafts, poolAnimals, composition, globalOrder)
    ensures Drafted(drafts)
    ensures forall i :: 0 <= i < |drafts| ==> 1 <= drafts[i].sampleCount <= size
    ensures forall i :: 0 <= i < |drafts| - 1 ==> drafts[i].sampleCount == size
    ensures SumSamples(drafts) == Covered(ts, size)
    ensures Flatten(drafts) <= Parts(ts, size)
    ensures LastPositive(ts) ==> Flatten(drafts) == Parts(ts, size)
  {
    assert ts[..|ts|] == ts;
    if !LastPositive(ts) {
      SumOfFull(drafts, size);
      RemainderOf(|drafts|, size, poolAnimals);
    }
  }

  /** As written, a last tropa without animals leaves the open partial pool
      unclosed: for tropas A with 5 animals and then B with none, the drafted
      pools cover none of the 5 animals. */
  lemma TrailingEmptyTropaDropsAnimals()
    ensures var ts := [Tropa(1, "A", 5, 0), Tropa(2, "B", 0, 0)];
      Sum(ts) == 5 && Covered(ts, 20) == 0
  {
    var ts := [Tropa(1, "A", 5, 0), Tropa(2, "B", 0, 0)];
    assert ts[..1] == [Tropa(1, "A", 5, 0)];
    assert ts[..1][..0] == [];
  }

  /** Dropping happens exactly when the last tropa has no animals and the
      animals do not fill a whole number of pools. */
  lemma CoveredAll(ts: seq<Tropa>, size: int)
    requires size > 0
    ensures Covered(ts, size) <= Sum(ts)
    ensures Covered(ts, size) == Sum(ts) <==> LastPositive(ts) || Sum(ts) % size == 0
  {
  }

  // ---------------------------------------------------------------------
  // Tail merge

  /** `b` folded into `a`: counts added, range extended to `b`'s end, weight
      recomputed, compositions concatenated; `a` keeps its number. */
  function Absorb(a: Draft, b: Draft): Draft {
    var n := a.sampleCount + b.sampleCount;
    a.(sampleCount := n, rangeEnd := b.rangeEnd, weight := n * 5,
       composition := a.composition + b.composition)
  }

  predicate MergeFires(ds: seq<Draft>) {
    |ds| > 1 && ds[|ds| - 1].sampleCount < 4
  }

  /** The single trailing merge: a last pool with fewer than 4 animals is
      absorbed by the pool before it. */
  function MergeTail(ds: seq<Draft>): seq<Draft> {
    if MergeFires(ds) then ds[..|ds| - 2] + [Absorb(ds[|ds| - 2], ds[|ds| - 1])] else ds
  }

  /** The merged pool is well formed in the position of the first of the two. */
  lemma AbsorbWellFormed(a: Draft, b: Draft, k: nat)
    requires WellFormed(a, k) && WellFormed(b, k + 1)
    requires b.rangeStart == a.rangeEnd + 1
    ensures WellFormed(Absorb(a, b), k)
    ensures Absorb(a, b).rangeStart == a.rangeStart
  {
    SumCountsAppend(a.composition, b.composition);
    var c := a.composition + b.composition;
    forall i | 0 <= i < |c|
      ensures c[i].count > 0
    {
      if i >= |a.composition| {
        assert c[i] == b.composition[i - |a.composition|];
      }
    }
  }

  /** Replacing the last two pools of a well-formed list by their merge keeps
      it well formed. */
  lemma MergeTailDrafted(ds: seq<Draft>)
    requires Drafted(ds) && |ds| > 1
    ensures Drafted(ds[..|ds| - 2] + [Absorb(ds[|ds| - 2], ds[|ds| - 1])])
  {
    var n := |ds|;
    var m := Absorb(ds[n - 2], ds[n - 1]);
    var r := ds[..n - 2] + [m];
    AbsorbWellFormed(ds[n - 2], ds[n - 1], n - 2);
    forall i | 0 <= i < |r|
      ensures WellFormed(r[i], i)
    {
      if i < n - 2 {
        assert r[i] == ds[i];
      }
    }
    forall i | 0 < i < |r|
      ensures r[i].rangeStart == r[i - 1].rangeEnd + 1
    {
      assert r[i - 1] == ds[i - 1];
      if i < n - 2 {
        assert r[i] == ds[i];
      }
    }
  }

  /** The merge keeps the total and the compositions in pool order. */
  lemma MergeTailTotals(ds: seq<Draft>)
    requires |ds| > 1
    ensures var r := ds[..|ds| - 2] + [Absorb(ds[|ds| - 2], ds[|ds| - 1])];
      SumSamples(r) == SumSamples(ds) && Flatten(r) == Flatten(ds)
  {
    var n := |ds|;
    var front := ds[..n - 2];
    var a, b := ds[n - 2], ds[n - 1];
    assert ds == front + [a] + [b];
    FlattenSnoc(front, a);
    FlattenSnoc(front + [a], b);
    FlattenSnoc(front, Absorb(a, b));
    assert Flatten(front) + (a.composition + b.composition) == Flatten(front) + a.composition + b.composition;
  }

  /** The merge removes exactly one pool when it fires and nothing otherwise,
      leaves every pool before the merged one untouched, and keeps the list
      well formed, its total and its compositions in order. */
  lemma MergeTailPreserves(ds: seq<Draft>)
    requires Drafted(ds)
    ensures var r := MergeTail(ds);
      && |r| == (if MergeFires(ds) then |ds| - 1 else |ds|)
      && (MergeFires(ds) ==> r[..|ds| - 2] == ds[..|ds| - 2])
      && (!MergeFires(ds) ==> r == ds)
      && Drafted(r)
      && SumSamples(r) == SumSamples(ds)
      && Flatten(r) == Flatten(ds)
  {
    if MergeFires(ds) {
      MergeTailDrafted(ds);
      MergeTailTotals(ds);
    }
  }

  /** After the merge no pool holds fewer than 4 animals, unless the list has a
      single pool, provided every pool but the last held at least 4 before. */
  lemma MergeTailFloor(ds: seq<Draft>)
    requires forall i :: 0 <= i < |ds| - 1 ==> ds[i].sampleCount >= 4
    requires forall i :: 0 <= i < |ds| ==> ds[i].sampleCount >= 1
    ensures var r := MergeTail(ds);
      |r| > 1 ==> forall i :: 0 <= i < |r| ==> r[i].sampleCount >= 4
  {
  }

  /** Merging happens at most once: on a list whose pools but the last hold at
      least 4 animals, a second merge changes nothing. */
  lemma MergeTailOnce(ds: seq<Draft>)
    requires forall i :: 0 <= i < |ds| - 1 ==> ds[i].sampleCount >= 4
    requires forall i :: 0 <= i < |ds| ==> ds[i].sampleCount >= 1
    ensures MergeTail(MergeTail(ds)) == MergeTail(ds)
  {
  }

  /** The merged pool's three texts are the source's string concatenations of
      the two pools' texts. */
  lemma AbsorbTexts(a: Draft, b: Draft)
    requires |a.composition| > 0 && |b.composition| > 0
    ensures TropasText(Absorb(a, b).composition) == TropasText(a.composition) + "/" + TropasText(b.composition)
    ensures CountsText(Absorb(a, b).composition) == CountsText(a.composition) + "/" + CountsText(b.composition)
    ensures CompositionText(Absorb(a, b).composition)
         == CompositionText(a.composition) + ", " + CompositionText(b.composition)
  {
    MergedTexts(a.composition, b.composition);
  }

  // ---------------------------------------------------------------------
  // Ordering of tropas

  /** Ascending ids, stated on neighbours. */
  predicate SortedById(ts: seq<Tropa>) {
    forall i :: 0 < i < |ts| ==> ts[i - 1].id <= ts[i].id
  }

  /** Inserts `t` before the first tropa of larger or equal id. */
  function Insert(t: Tropa, ts: seq<Tropa>): seq<Tropa> {
    if ts == [] || t.id <= ts[0].id then [t] + ts
    else [ts[0]] + Insert(t, ts[1..])
  }

  /** Insertion into a sorted list keeps it sorted, adds exactly `t`, and
      puts at the front either `t` or the old front. */
  lemma {:induction false} InsertSorted(t: Tropa, ts: seq<Tropa>)
    requires SortedById(ts)
    ensures var r := Insert(t, ts);
      && SortedById(r)
      && multiset(r) == multiset(ts) + multiset{t}
      && |r| == |ts| + 1
      && (r[0] == t || (|ts| > 0 && r[0] == ts[0]))
    decreases |ts|
  {
    if ts != [] && t.id > ts[0].id {
      var rest := Insert(t, ts[1..]);
      InsertSorted(t, ts[1..]);
      assert ts == [ts[0]] + ts[1..];
      var r := [ts[0]] + rest;
      assert Insert(t, ts) == r;
      forall i | 0 < i < |r|
        ensures r[i - 1].id <= r[i].id
      {
        if i > 1 {
          assert r[i - 1] == rest[i - 2] && r[i] == rest[i - 1];
        }
      }
    }
  }

  /** `[...tropas].sort((a, b) => a.id - b.id)`: the same tropas in ascending
      id order. */
  function SortById(ts: seq<Tropa>): (r: seq<Tropa>)
    ensures SortedById(r)
    ensures multiset(r) == multiset(ts)
  {
    if ts == [] then []
    else
      assert ts == [ts[0]] + ts[1..];
      InsertSorted(ts[0], SortById(ts[1..]));
      Insert(ts[0], SortById(ts[1..]))
  }

  /** The tropas that hold animals, in order. */
  function Positives(ts: seq<Tropa>): seq<Tropa> {
    if ts == [] then []
    else
      var init := ts[..|ts| - 1];
      var t := ts[|ts| - 1];
      Positives(init) + (if t.totalAnimals > 0 then [t] else [])
  }

  /** Leaving out tropas without animals changes neither the total nor the
      parts, and makes the last remaining tropa one with animals. */
  lemma {:induction false} PositivesKeepParts(ts: seq<Tropa>, size: int)
    requires size > 0
    ensures Sum(Positives(ts)) == Sum(ts)
    ensures Parts(Positives(ts), size) == Parts(ts, size)
    ensures Positives(ts) == [] || LastPositive(Positives(ts))
    ensures Positives(ts) == [] ==> Sum(ts) == 0
    decreases |ts|
  {
    if ts != [] {
      var init := ts[..|ts| - 1];
      var t := ts[|ts| - 1];
      PositivesKeepParts(init, size);
      var pi := Positives(init);
      if t.totalAnimals > 0 {
        assert (pi + [t])[..|pi|] == pi;
      } else {
        assert Positives(ts) == pi;
      }
    }
  }

  // ---------------------------------------------------------------------
  // The whole generation

  /** What a generated pool list promises for tropas `ts` (in consumption
      order) and pool size `size`: numbered, weighed and chained ranges from 1;
      all animals covered; compositions in pool order equal the tropas' parts;
      every pool but the last full; the last at most 3 over the size; and no
      pool under 4 animals unless there is only one. */
  predicate Allocation(ds: seq<Draft>, size: int, ts: seq<Tropa>)
    requires size > 0
  {
    && Drafted(ds)
    && SumSamples(ds) == Sum(ts)
    && Flatten(ds) == Parts(ts, size)
    && (forall i :: 0 <= i < |ds| - 1 ==> ds[i].sampleCount == size)
    && (|ds| > 0 ==> 1 <= ds[|ds| - 1].sampleCount <= size + 3)
    && (|ds| > 1 ==> ds[|ds| - 1].sampleCount >= 4)
  }

  /** Drafting the tropas that hold animals covers every animal of all the
      tropas, and the compositions are the parts of all the tropas. */
  lemma PositivesCovered(ts: seq<Tropa>, size: int, drafts: seq<Draft>)
    requires size > 0
    requires SumSamples(drafts) == Covered(Positives(ts), size)
    requires Flatten(drafts) <= Parts(Positives(ts), size)
    requires LastPositive(Positives(ts)) ==> Flatten(drafts) == Parts(Positives(ts), size)
    ensures SumSamples(drafts) == Sum(ts)
    ensures Flatten(drafts) == Parts(ts, size)
  {
    PositivesKeepParts(ts, size);
    if Positives(ts) == [] {
      assert Parts(Positives(ts), size) == [];
    }
  }

  /** Drafting the tropas that hold animals and then merging the tail yields an
      allocation of all the tropas. */
  lemma MergedAllocation(ts: seq<Tropa>, size: int, drafts: seq<Draft>)
    requires size >= 4
    requires Drafted(drafts)
    requires forall i :: 0 <= i < |drafts| ==> 1 <= drafts[i].sampleCount <= size
    requires forall i :: 0 <= i < |drafts| - 1 ==> drafts[i].sampleCount == size
    requires SumSamples(drafts) == Covered(Positives(ts), size)
    requires Flatten(drafts) <= Parts(Positives(ts), size)
    requires LastPositive(Positives(ts)) ==> Flatten(drafts) == Parts(Positives(ts), size)
    ensures Allocation(MergeTail(drafts), size, ts)
  {
    PositivesCovered(ts, size, drafts);
    MergeTailPreserves(drafts);
    MergeTailFloor(drafts);
  }

  /** When the last tropa has animals the loop as written needs no correction:
      its drafts, merged, are already an allocation of all the tropas. */
  lemma AsWrittenIsAllocation(ts: seq<Tropa>, size: int, drafts: seq<Draft>)
    requires size >= 4 && LastPositive(ts)
    requires Drafted(drafts)
    requires forall i :: 0 <= i < |drafts| ==> 1 <= drafts[i].sampleCount <= size
    requires forall i :: 0 <= i < |drafts| - 1 ==> drafts[i].sampleCount == size
    requires SumSamples(drafts) == Covered(ts, size)
    requires Flatten(drafts) == Parts(ts, size)
    ensures Allocation(MergeTail(drafts), size, ts)
  {
    PositivesKeepParts(ts, size);
    assert Positives(ts) != [] by {
      assert ts == ts[..|ts| - 1] + [ts[|ts| - 1]];
    }
    MergedAllocation(ts, size, drafts);
  }

  // ---------------------------------------------------------------------
  // An allocation is determined by the tropas and the pool size

  /** Parts with positive counts hold at least one animal each. */
  lemma {:induction false} PositiveSum(c: seq<Part>)
    requires PositiveParts(c)
    ensures SumCounts(c) >= |c|
    decreases |c|
  {
    if c != [] {
      PositiveSum(c[..|c| - 1]);
    }
  }

  /** Within one list of positive parts, a shorter suffix with the same total
      as a longer one is that suffix. */
  lemma ShorterTail(x: seq<Part>, y: seq<Part>, u: seq<Part>, v: seq<Part>)
    requires x + y == u + v && |y| <= |v|
    requires PositiveParts(y) && PositiveParts(v) && SumCounts(y) == SumCounts(v)
    ensures y == v
  {
    var w := v[..|v| - |y|];
    assert v[|v| - |y|..] == (u + v)[|u| + |v| - |y|..] == (x + y)[|x|..] == y;
    assert v == w + y;
    SumCountsAppend(w, y);
    PositiveSum(w);
  }

  /** Two ways of ending the same list of positive parts with suffixes of the
      same total agree on both the suffix and what precedes it. */
  lemma SameTail(x: seq<Part>, y: seq<Part>, u: seq<Part>, v: seq<Part>)
    requires x + y == u + v
    requires PositiveParts(y) && PositiveParts(v) && SumCounts(y) == SumCounts(v)
    ensures y == v && x == u
  {
    if |y| <= |v| {
      ShorterTail(x, y, u, v);
    } else {
      ShorterTail(u, v, x, y);
    }
    assert x == (x + y)[..|x|];
  }

  /** Pool lists with the same flattened composition and the same total in
      every pool have the same composition in every pool. */
  lemma {:induction false} SameCompositions(a: seq<Draft>, b: seq<Draft>)
    requires |a| == |b| && Flatten(a) == Flatten(b)
    requires forall i :: 0 <= i < |a| ==> PositiveParts(a[i].composition) && PositiveParts(b[i].composition)
    requires forall i :: 0 <= i < |a| ==> SumCounts(a[i].composition) == SumCounts(b[i].composition)
    ensures forall i :: 0 <= i < |a| ==> a[i].composition == b[i].composition
    decreases |a|
  {
    if a != [] {
      var n := |a| - 1;
      SameTail(Flatten(a[..n]), a[n].composition, Flatten(b[..n]), b[n].composition);
      SameCompositions(a[..n], b[..n]);
      forall i | 0 <= i < n
        ensures a[i].composition == b[i].composition
      {
        assert a[..n][i] == a[i] && b[..n][i] == b[i];
      }
    }
  }

  /** The total of a pool list whose pools but the last are full. */
  lemma LastSplit(ds: seq<Draft>, size: int)
    requires |ds| > 0
    requires forall i :: 0 <= i < |ds| - 1 ==> ds[i].sampleCount == size
    ensures SumSamples(ds) == (|ds| - 1) * size + ds[|ds| - 1].sampleCount
  {
    SumOfFull(ds[..|ds| - 1], size);
  }

  /** A total of (n - 1) full pools plus a last pool of 1..size+3 animals, at
      least 4 when n > 1, fixes both n and the last pool. */
  lemma PoolCountFixed(n1: int, l1: int, n2: int, l2: int, size: int)
    requires size > 0 && n1 >= 1 && n2 >= 1
    requires 1 <= l1 <= size + 3 && (n1 > 1 ==> l1 >= 4)
    requires 1 <= l2 <= size + 3 && (n2 > 1 ==> l2 >= 4)
    requires (n1 - 1) * size + l1 == (n2 - 1) * size + l2
    ensures n1 == n2 && l1 == l2
  {
    if n1 < n2 {
      assert (n2 - n1) * size == l1 - l2;
      MulAtLeast(n2 - n1, size);
    } else if n2 < n1 {
      assert (n1 - n2) * size == l2 - l1;
      MulAtLeast(n1 - n2, size);
    }
  }

  /** Two allocations of the same tropas have as many pools and the same
      animals in each. */
  lemma SameCounts(ds1: seq<Draft>, ds2: seq<Draft>, size: int, ts: seq<Tropa>)
    requires size > 0 && Allocation(ds1, size, ts) && Allocation(ds2, size, ts)
    ensures |ds1| == |ds2|
    ensures forall i :: 0 <= i < |ds1| ==> ds1[i].sampleCount == ds2[i].sampleCount
  {
    if ds1 != [] && ds2 != [] {
      LastSplit(ds1, size);
      LastSplit(ds2, size);
      PoolCountFixed(|ds1|, ds1[|ds1| - 1].sampleCount, |ds2|, ds2[|ds2| - 1].sampleCount, size);
    } else if ds1 != [] {
      LastSplit(ds1, size);
      if |ds1| > 1 {
        MulAtLeast(|ds1| - 1, size);
      }
    } else if ds2 != [] {
      LastSplit(ds2, size);
      if |ds2| > 1 {
        MulAtLeast(|ds2| - 1, size);
      }
    }
  }

  /** Chained pool lists with the same counts start each pool at the same
      order number. */
  lemma {:induction false} SameStart(a: seq<Draft>, b: seq<Draft>, i: nat)
    requires Chained(a) && Chained(b) && |a| == |b| && i < |a|
    requires forall j :: 0 <= j < |a| ==> a[j].rangeEnd == a[j].rangeStart + a[j].sampleCount - 1
    requires forall j :: 0 <= j < |b| ==> b[j].rangeEnd == b[j].rangeStart + b[j].sampleCount - 1
    requires forall j :: 0 <= j < |a| ==> a[j].sampleCount == b[j].sampleCount
    ensures a[i].rangeStart == b[i].rangeStart
    decreases i
  {
    if i > 0 {
      SameStart(a, b, i - 1);
    }
  }

  /** The allocation of given tropas into pools of a given size is unique:
      every field of every pool follows from the tropas and the size. */
  lemma AllocationUnique(ds1: seq<Draft>, ds2: seq<Draft>, size: int, ts: seq<Tropa>)
    requires size > 0 && Allocation(ds1, size, ts) && Allocation(ds2, size, ts)
    ensures ds1 == ds2
  {
    SameCounts(ds1, ds2, size, ts);
    SameCompositions(ds1, ds2);
    forall i | 0 <= i < |ds1|
      ensures ds1[i] == ds2[i]
    {
      SameStart(ds1, ds2, i);
    }
  }

  /** When the last tropa has animals, the loop as written and merged returns
      exactly the pools of any allocation of the tropas, in particular those
      of the corrected generation. */
  lemma AsWrittenMatchesCorrected(ts: seq<Tropa>, size: int, drafts: seq<Draft>, pools: seq<Draft>)
    requires size >= 4 && LastPositive(ts)
    requires Drafted(drafts)
    requires forall i :: 0 <= i < |drafts| ==> 1 <= drafts[i].sampleCount <= size
    requires forall i :: 0 <= i < |drafts| - 1 ==> drafts[i].sampleCount == size
    requires SumSamples(drafts) == Covered(ts, size)
    requires Flatten(drafts) == Parts(ts, size)
    requires Allocation(pools, size, ts)
    ensures MergeTail(drafts) == pools
  {
    AsWrittenIsAllocation(ts, size, drafts);
    AllocationUnique(MergeTail(drafts), pools, size, ts);
  }

  /** The merge step of handleGeneratePools, on the drafted list: when the
      last pool holds fewer than 4 animals, the pool before it takes over its
      animals, range end, weight and composition, and the last pool is
      dropped. */
  method MergeLastPools(drafts: seq<Draft>) returns (pools: seq<Draft>)
    ensures pools == MergeTail(drafts)
  {
    pools := drafts;
    if |pools| > 1 {
      var lastPool := pools[|pools| - 1];
      if lastPool.sampleCount < 4 {
        var secondToLast := pools[|pools| - 2];
        var n := secondToLast.sampleCount + lastPool.sampleCount;
        secondToLast := secondToLast.(sampleCount := n, rangeEnd := lastPool.rangeEnd, weight := n * 5,
                                      composition := secondToLast.composition + lastPool.composition);
        pools := pools[..|pools| - 2] + [secondToLast];
      }
    }
  }

  /** The allocation proper for tropas `ts`, already in id order: the tropas
      without animals are set aside, the rest drafted into pools of `size`, and
      a trailing pool of fewer than 4 animals is folded into its predecessor. */
  method AllocatePools(ts: seq<Tropa>, size: int) returns (pools: seq<Draft>)
    requires size >= 4
    ensures Allocation(pools, size, ts)
  {
    var positive := Positives(ts);
    var drafts := DraftPools(positive, size);
    pools := MergeLastPools(drafts);
    MergedAllocation(ts, size, drafts);
  }

  /** handleGeneratePools without its storage calls: refused without an open
      jornada or without tropas; otherwise pools of 20 (normal jornada) or 10
      animals allocated from the tropas in id order. Tropas without animals
      are left out before drafting, so a trailing empty tropa no longer drops
      the last partial pool. */
  method GeneratePools(current: Option<Kind>, tropas: seq<Tropa>) returns (r: Result<seq<Draft>>)
    ensures current.None? ==> r == Err(NoOpenJornada)
    ensures current.Some? && tropas == [] ==> r == Err(NoTropas)
    ensures current.Some? && tropas != [] ==>
              r.Ok? && Allocation(r.value, PoolSize(current.value), SortById(tropas))
  {
    if current.None? {
      return Err(NoOpenJornada);
    }
    if |tropas| == 0 {
      return Err(NoTropas);
    }
    var sortedTropas := SortById(tropas);
    var pools := AllocatePools(sortedTropas, PoolSize(current.value));
    return Ok(pools);
  }
}
