/** The pure rules the trichinosis screen shows around the pools: the tropa
    filter, the summary counts, and the reagent doses and row tone chosen by a
    pool's sample count (src/components/Triquinosis.tsx). */
module Summary {
  import opened Records
  import PoolAllocator
  import Jornada

  // ---------------------------------------------------------------------
  // The tropa filter

  datatype TropaFilter = All | Internal | External

  predicate Keeps(f: TropaFilter, t: Tropa) {
    match f
    case Internal => t.isInternal == 1
    case External => t.isInternal == 0
    case All => true
  }

  /** `filteredTropas`: the tropas the filter keeps, in their order. */
  function FilteredTropas(ts: seq<Tropa>, f: TropaFilter): (r: seq<Tropa>)
    ensures |r| <= |ts|
    ensures forall t :: t in r <==> t in ts && Keeps(f, t)
  {
    if ts == [] then []
    else
      var init := ts[..|ts| - 1];
      var t := ts[|ts| - 1];
      assert ts == init + [t];
      FilteredTropas(init, f) + (if Keeps(f, t) then [t] else [])
  }

  /** Filtering distributes over concatenation, so the kept tropas keep their
      relative order. */
  lemma {:induction false} FilterAppend(a: seq<Tropa>, b: seq<Tropa>, f: TropaFilter)
    ensures FilteredTropas(a + b, f) == FilteredTropas(a, f) + FilteredTropas(b, f)
    decreases |b|
  {
    if b == [] {
      assert a + b == a;
    } else {
      var b', t := b[..|b| - 1], b[|b| - 1];
      var tail := if Keeps(f, t) then [t] else [];
      assert (a + b)[..|a + b| - 1] == a + b';
      FilterAppend(a, b', f);
      calc {
        FilteredTropas(a + b, f);
        FilteredTropas(a + b', f) + tail;
        (FilteredTropas(a, f) + FilteredTropas(b', f)) + tail;
        { assert (FilteredTropas(a, f) + FilteredTropas(b', f)) + tail
              == FilteredTropas(a, f) + (FilteredTropas(b', f) + tail); }
        FilteredTropas(a, f) + FilteredTropas(b, f);
      }
    }
  }

  /** The "all" filter keeps the list as it is. */
  lemma {:induction false} FilterAll(ts: seq<Tropa>)
    ensures FilteredTropas(ts, All) == ts
    decreases |ts|
  {
    if ts != [] {
      FilterAll(ts[..|ts| - 1]);
      assert ts == ts[..|ts| - 1] + [ts[|ts| - 1]];
    }
  }

  /** Internal and external tropas together are all the tropas exactly when
      every flag is 0 or 1 (the only values the tropa form sends). */
  lemma {:induction false} FilterPartition(ts: seq<Tropa>)
    ensures |FilteredTropas(ts, Internal)| + |FilteredTropas(ts, External)| <= |ts|
    ensures |FilteredTropas(ts, Internal)| + |FilteredTropas(ts, External)| == |ts|
            <==> forall i :: 0 <= i < |ts| ==> ts[i].isInternal == 0 || ts[i].isInternal == 1
    decreases |ts|
  {
    if ts != [] {
      var init := ts[..|ts| - 1];
      FilterPartition(init);
      assert forall i :: 0 <= i < |init| ==> init[i] == ts[i];
    }
  }

  // ---------------------------------------------------------------------
  // Summary counts

  /** How many pools carry verdict `v` (`pools.filter(p => p.result === v).length`). */
  function CountResult(pools: seq<Pool>, v: Verdict): (n: nat)
    ensures n <= |pools|
  {
    if pools == [] then 0
    else CountResult(pools[..|pools| - 1], v) + (if pools[|pools| - 1].result == v then 1 else 0)
  }

  /** The ND, P and pending counts add up to the pool count, and the pending
      count is the one the finish handler reports. */
  lemma {:induction false} CountsPartition(pools: seq<Pool>)
    ensures CountResult(pools, ND) + CountResult(pools, P) + CountResult(pools, Pending) == |pools|
    ensures CountResult(pools, Pending) == Jornada.PendingCount(pools)
    decreases |pools|
  {
    if pools != [] {
      CountsPartition(pools[..|pools| - 1]);
    }
  }

  /** `tropas.reduce((acc, t) => acc + t.total_animals, 0)`: the raw total,
      negative counts included. */
  function TotalAnimals(ts: seq<Tropa>): int {
    if ts == [] then 0 else TotalAnimals(ts[..|ts| - 1]) + ts[|ts| - 1].totalAnimals
  }

  lemma {:induction false} TotalAppend(a: seq<Tropa>, b: seq<Tropa>)
    ensures TotalAnimals(a + b) == TotalAnimals(a) + TotalAnimals(b)
    decreases |b|
  {
    if b == [] {
      assert a + b == a;
    } else {
      assert (a + b)[..|a + b| - 1] == a + b[..|b| - 1];
      TotalAppend(a, b[..|b| - 1]);
    }
  }

  /** The total does not depend on the order of the tropas. */
  lemma {:induction false} TotalPermutation(a: seq<Tropa>, b: seq<Tropa>)
    requires multiset(a) == multiset(b)
    ensures TotalAnimals(a) == TotalAnimals(b)
    decreases |a|
  {
    if a == [] {
      assert |multiset(b)| == 0;
    } else {
      var x := a[|a| - 1];
      var init := a[..|a| - 1];
      assert a == init + [x];
      assert x in multiset(b);
      var i :| 0 <= i < |b| && b[i] == x;
      var rest := b[..i] + b[i + 1..];
      assert b == b[..i] + [x] + b[i + 1..];
      assert multiset(b) == multiset(rest) + multiset{x} by {
        assert multiset(b) == multiset(b[..i]) + multiset{x} + multiset(b[i + 1..]);
      }
      assert multiset(a) == multiset(init) + multiset{x};
      assert multiset(rest) == multiset(init) by {
        assert multiset(rest) == multiset(b) - multiset{x};
        assert multiset(init) == multiset(a) - multiset{x};
      }
      TotalPermutation(init, rest);
      TotalAppend(b[..i] + [x], b[i + 1..]);
      TotalAppend(b[..i], [x]);
      TotalAppend(b[..i], b[i + 1..]);
    }
  }

  /** With no negative counts, the raw total is the number of animals the
      allocator feeds into the pools. */
  lemma {:induction false} TotalIsAllocated(ts: seq<Tropa>)
    requires forall i :: 0 <= i < |ts| ==> ts[i].totalAnimals >= 0
    ensures TotalAnimals(ts) == PoolAllocator.Sum(ts)
    decreases |ts|
  {
    if ts != [] {
      TotalIsAllocated(ts[..|ts| - 1]);
    }
  }

  /** The sidebar's "Total Animales" equals the animals in the generated pools
      when no tropa has a negative count. */
  lemma TotalMatchesPools(tropas: seq<Tropa>, size: int, ds: seq<Draft>)
    requires size > 0
    requires forall i :: 0 <= i < |tropas| ==> tropas[i].totalAnimals >= 0
    requires PoolAllocator.Allocation(ds, size, PoolAllocator.SortById(tropas))
    ensures SumSamples(ds) == TotalAnimals(tropas)
  {
    var sorted := PoolAllocator.SortById(tropas);
    forall i | 0 <= i < |sorted|
      ensures sorted[i].totalAnimals >= 0
    {
      assert sorted[i] in multiset(tropas);
    }
    TotalIsAllocated(sorted);
    TotalPermutation(sorted, tropas);
  }

  // ---------------------------------------------------------------------
  // Reagents and row tone

  /** Digestion volume in ml, pepsin in tenths of a gram, HCl in tenths of a ml. */
  datatype Dose = Dose(digestionMl: int, pepsinDg: int, hclDml: int)

  /** The reagents for a full pool, and the half dose for a small one. */
  const FullDose := Dose(1500, 150, 150)
  const SmallDose := Dose(750, 75, 75)

  /** The reagent columns of a pool row: a pool of fewer than 10 samples is
      digested with the small dose. */
  function Reagents(sampleCount: int): Dose {
    if sampleCount < 10 then SmallDose else FullDose
  }

  datatype Tone = Red | Amber | Plain

  /** The background of a pool row. */
  function RowTone(p: Pool): Tone {
    if p.result == P then Red else if p.draft.sampleCount < 10 then Amber else Plain
  }

  /** A row is red exactly for a positive pool; any other row is amber exactly
      when its pool takes the small dose. */
  lemma ToneMatchesDose(p: Pool)
    ensures RowTone(p) == Red <==> p.result == P
    ensures p.result != P ==> (RowTone(p) == Amber <==> Reagents(p.draft.sampleCount) == SmallDose)
    ensures p.result != P ==> (RowTone(p) == Plain <==> Reagents(p.draft.sampleCount) == FullDose)
  {
  }

  /** In a generated pool list only the last pool can take the small dose:
      every other pool holds the full 10 or 20 animals. */
  lemma OnlyLastHalfDose(kind: Kind, tropas: seq<Tropa>, ds: seq<Draft>)
    requires PoolAllocator.Allocation(ds, PoolAllocator.PoolSize(kind), tropas)
    ensures forall i :: 0 <= i < |ds| - 1 ==> Reagents(ds[i].sampleCount) == FullDose
  {
  }

  /** Right after generation every row but the last is plain: the pools are
      pending and full. */
  lemma FreshRowsPlain(kind: Kind, tropas: seq<Tropa>, ds: seq<Draft>, firstId: int)
    requires PoolAllocator.Allocation(ds, PoolAllocator.PoolSize(kind), tropas)
    ensures var ps := Jornada.Stored(ds, firstId);
      forall i :: 0 <= i < |ps| - 1 ==> RowTone(ps[i]) == Plain
  {
  }
}
