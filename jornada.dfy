/** The open jornada as the trichinosis screen drives it: generating its pools,
    recording a verdict for one pool (handleUpdatePoolResult) and finishing it
    (handleFinishJornada), in src/components/Triquinosis.tsx. */
module Jornada {
  import opened Records
  import PoolAllocator

  // ---------------------------------------------------------------------
  // Recording a verdict

  /** What is stored for a pool's result. */
  datatype Reading = Reading(verdict: Verdict, larvae: int, observations: string)

  /** A stored result that the recorder could have produced: a negative pool
      carries no larvae and no observations, a positive one at least one larva,
      and a pending pool the store's defaults. */
  predicate Consistent(r: Reading) {
    match r.verdict
    case Pending => r.larvae == 0 && r.observations == ""
    case ND => r.larvae == 0 && r.observations == ""
    case P => r.larvae > 0
  }

  /** The validation and normalisation applied before a verdict is stored: a
      positive verdict without larvae is refused; a negative one drops
      whatever larvae count and observations came with it; a positive one is
      stored as given. */
  function Normalise(verdict: Verdict, larvae: int, observations: string): (r: Result<Reading>)
    requires verdict != Pending
    ensures r.Err? <==> verdict == P && larvae <= 0
    ensures r.Err? ==> r.error == InvalidResult
    ensures r.Ok? ==> r.value.verdict == verdict && Consistent(r.value)
    ensures r.Ok? && verdict == P ==> r.value.larvae == larvae && r.value.observations == observations
  {
    if verdict == P && larvae <= 0 then Err(InvalidResult)
    else if verdict == ND then Ok(Reading(ND, 0, ""))
    else Ok(Reading(verdict, larvae, observations))
  }

  /** Recording a stored result again changes nothing, and every consistent
      verdict can be recorded. */
  lemma NormaliseFixpoint(r: Reading)
    requires Consistent(r) && r.verdict != Pending
    ensures Normalise(r.verdict, r.larvae, r.observations) == Ok(r)
  {
  }

  /** A negative verdict is stored the same whatever larvae count and
      observations the caller passed. */
  lemma NormaliseIgnoresNegativeDetails(l1: int, o1: string, l2: int, o2: string)
    ensures Normalise(ND, l1, o1) == Normalise(ND, l2, o2) == Ok(Reading(ND, 0, ""))
  {
  }

  // ---------------------------------------------------------------------
  // Finish gating

  function ReadingOf(p: Pool): Reading {
    Reading(p.result, p.larvae, p.observations)
  }

  function PendingCount(pools: seq<Pool>): (n: nat)
    ensures n <= |pools|
  {
    if pools == [] then 0
    else PendingCount(pools[..|pools| - 1]) + (if pools[|pools| - 1].result == Pending then 1 else 0)
  }

  /** `pools.length > 0 && pools.every(p => p.result !== 'pending')`: the
      predicate that highlights the Finish button (which stays clickable; the
      handler's guards refuse) and shows the ADA button. */
  predicate CanFinish(pools: seq<Pool>) {
    |pools| > 0 && forall i :: 0 <= i < |pools| ==> pools[i].result != Pending
  }

  /** No pool is pending exactly when the pending count is zero. */
  lemma {:induction false} PendingCountZero(pools: seq<Pool>)
    ensures PendingCount(pools) == 0 <==> forall i :: 0 <= i < |pools| ==> pools[i].result != Pending
    decreases |pools|
  {
    if pools != [] {
      var init := pools[..|pools| - 1];
      PendingCountZero(init);
      if PendingCount(pools) == 0 {
        forall i | 0 <= i < |pools|
          ensures pools[i].result != Pending
        {
          if i < |init| {
            assert pools[i] == init[i];
          }
        }
      }
      if forall i :: 0 <= i < |pools| ==> pools[i].result != Pending {
        forall i | 0 <= i < |init|
          ensures init[i].result != Pending
        {
          assert init[i] == pools[i];
        }
      }
    }
  }

  /** The button predicate agrees with the handler's two guards: there are
      pools, and none of them is pending. */
  lemma CanFinishIffGuards(pools: seq<Pool>)
    ensures CanFinish(pools) <==> |pools| > 0 && PendingCount(pools) == 0
  {
    PendingCountZero(pools);
  }

  // ---------------------------------------------------------------------
  // The session

  datatype Status = Open | Completed

  /** The pools stored for fresh drafts: ids from `firstId` on, every result
      pending with the store's defaults. */
  function Stored(drafts: seq<Draft>, firstId: int): (ps: seq<Pool>)
    ensures |ps| == |drafts|
    ensures forall i :: 0 <= i < |ps| ==> ps[i].id == firstId + i && ps[i].draft == drafts[i]
    ensures forall i :: 0 <= i < |ps| ==> ps[i].result == Pending && Consistent(ReadingOf(ps[i]))
  {
    seq(|drafts|, i requires 0 <= i < |drafts| => Pool(firstId + i, drafts[i], Pending, 0, ""))
  }

  /** The drafts of the stored pools, in order. */
  function DraftsOf(pools: seq<Pool>): (ds: seq<Draft>)
    ensures |ds| == |pools|
    ensures forall i :: 0 <= i < |ds| ==> ds[i] == pools[i].draft
  {
    seq(|pools|, i requires 0 <= i < |pools| => pools[i].draft)
  }

  /** The first position of the pool with id `id`, if any. */
  function IndexOf(pools: seq<Pool>, id: int): (r: Option<nat>)
    ensures r.Some? ==> r.value < |pools| && pools[r.value].id == id
    ensures r.None? ==> forall i :: 0 <= i < |pools| ==> pools[i].id != id
  {
    if pools == [] then None
    else if pools[0].id == id then Some(0)
    else match IndexOf(pools[1..], id)
      case None => None
      case Some(k) => Some(k + 1)
  }

  /** Distinct ids below `bound`. */
  predicate IdsBelow(pools: seq<Pool>, bound: int) {
    && (forall i :: 0 <= i < |pools| ==> 1 <= pools[i].id < bound)
    && (forall i, j :: 0 <= i < j < |pools| ==> pools[i].id != pools[j].id)
  }

  /** The invariant of a session's pools: ids distinct and already issued,
      pools numbered, weighed and ranged consecutively from 1, and every stored
      result one the recorder could have produced. */
  predicate ValidPools(pools: seq<Pool>, nextId: int) {
    && nextId >= 1
    && IdsBelow(pools, nextId)
    && PoolAllocator.Drafted(DraftsOf(pools))
    && (forall i :: 0 <= i < |pools| ==> Consistent(ReadingOf(pools[i])))
  }

  /** Storing fresh drafts with ids from `firstId` on gives valid pools. */
  lemma StoredValid(drafts: seq<Draft>, firstId: int)
    requires firstId >= 1 && PoolAllocator.Drafted(drafts)
    ensures DraftsOf(Stored(drafts, firstId)) == drafts
    ensures ValidPools(Stored(drafts, firstId), firstId + |drafts|)
  {
    var ps := Stored(drafts, firstId);
    assert DraftsOf(ps) == drafts;
  }

  /** Generating pools twice from the same tropas in the same kind of jornada
      stores the same drafts, every result pending, under the second run's
      fresh ids: regeneration is idempotent up to the ids. */
  lemma RegenerationIdempotent(first: seq<Pool>, second: seq<Pool>, kind: Kind, tropas: seq<Tropa>,
                               firstId: int, secondId: int)
    requires PoolAllocator.Allocation(DraftsOf(first), PoolAllocator.PoolSize(kind), PoolAllocator.SortById(tropas))
    requires PoolAllocator.Allocation(DraftsOf(second), PoolAllocator.PoolSize(kind), PoolAllocator.SortById(tropas))
    requires first == Stored(DraftsOf(first), firstId) && second == Stored(DraftsOf(second), secondId)
    ensures DraftsOf(second) == DraftsOf(first)
    ensures second == Stored(DraftsOf(first), secondId)
  {
    PoolAllocator.AllocationUnique(DraftsOf(first), DraftsOf(second), PoolAllocator.PoolSize(kind),
                                   PoolAllocator.SortById(tropas));
  }

  /** Replacing one pool's reading by a consistent one keeps the pools valid. */
  lemma RecordValid(pools: seq<Pool>, nextId: int, k: nat, v: Reading)
    requires ValidPools(pools, nextId) && k < |pools| && Consistent(v)
    ensures var ps := pools[k := pools[k].(result := v.verdict, larvae := v.larvae, observations := v.observations)];
      ValidPools(ps, nextId)
  {
    var ps := pools[k := pools[k].(result := v.verdict, larvae := v.larvae, observations := v.observations)];
    assert DraftsOf(ps) == DraftsOf(pools);
    assert ReadingOf(ps[k]) == v;
  }

  /** One jornada: its kind, its status and the pools currently stored for it.
      `nextId` stands in for the store's id counter. */
  class Session {
    var kind: Kind
    var status: Status
    var pools: seq<Pool>
    var nextId: int

    ghost predicate Valid()
      reads this
    {
      ValidPools(pools, nextId)
    }

    /** A newly started jornada: open, without pools. */
    constructor(kind: Kind)
      ensures Valid()
      ensures this.kind == kind && status == Open && pools == [] && nextId == 1
    {
      this.kind := kind;
      status := Open;
      pools := [];
      nextId := 1;
    }

    /** handleGeneratePools: the existing pools are discarded and the
        allocation of `tropas` is stored in their place, every result pending. */
    method GeneratePools(tropas: seq<Tropa>) returns (r: Result<()>)
      requires Valid()
      modifies this
      ensures Valid()
      ensures kind == old(kind) && status == old(status)
      ensures old(status) != Open ==> r == Err(NoOpenJornada) && unchanged(this)
      ensures old(status) == Open && tropas == [] ==> r == Err(NoTropas) && unchanged(this)
      ensures old(status) == Open && tropas != [] ==>
                && r == Ok(())
                && PoolAllocator.Allocation(DraftsOf(pools), PoolAllocator.PoolSize(kind),
                                            PoolAllocator.SortById(tropas))
                && pools == Stored(DraftsOf(pools), old(nextId))
                && nextId == old(nextId) + |pools|
    {
      var current := if status == Open then Some(kind) else None;
      var generated := PoolAllocator.GeneratePools(current, tropas);
      if generated.Err? {
        return Err(generated.error);
      }
      var drafts := generated.value;
      var stored := Stored(drafts, nextId);
      StoredValid(drafts, nextId);
      pools := stored;
      nextId := nextId + |drafts|;
      return Ok(());
    }

    /** handleUpdatePoolResult: a positive verdict without larvae is refused;
        otherwise the normalised verdict replaces the result of the pool with
        id `poolId`, and nothing else changes. An id the store does not hold
        is refused, and so is any recording once the jornada is no longer
        open. */
    method RecordResult(poolId: int, verdict: Verdict, larvae: int, observations: string)
      returns (r: Result<()>)
      requires Valid() && verdict != Pending
      modifies this
      ensures Valid()
      ensures kind == old(kind) && status == old(status) && nextId == old(nextId)
      ensures Normalise(verdict, larvae, observations).Err? ==> r == Err(InvalidResult) && unchanged(this)
      ensures Normalise(verdict, larvae, observations).Ok? && old(status) != Open ==>
                r == Err(NoOpenJornada) && unchanged(this)
      ensures (Normalise(verdict, larvae, observations).Ok? && old(status) == Open
               && IndexOf(old(pools), poolId).None?) ==> r == Err(PoolNotFound) && unchanged(this)
      ensures r.Ok? <==> Normalise(verdict, larvae, observations).Ok? && old(status) == Open
                         && IndexOf(old(pools), poolId).Some?
      ensures r.Ok? ==>
                var k := IndexOf(old(pools), poolId).value;
                var v := Normalise(verdict, larvae, observations).value;
                pools == old(pools)[k := old(pools)[k].(result := v.verdict, larvae := v.larvae,
                                                        observations := v.observations)]
    {
      var normalised := Normalise(verdict, larvae, observations);
      if normalised.Err? {
        return Err(normalised.error);
      }
      if status != Open {
        return Err(NoOpenJornada);
      }
      var found := IndexOf(pools, poolId);
      if found.None? {
        return Err(PoolNotFound);
      }
      var k := found.value;
      var v := normalised.value;
      RecordValid(pools, nextId, k, v);
      pools := pools[k := pools[k].(result := v.verdict, larvae := v.larvae, observations := v.observations)];
      r := Ok(());
    }

    /** handleFinishJornada: refused without pools, refused while any pool is
        pending (reporting how many), left as is when the user does not
        confirm, and otherwise the jornada becomes completed. */
    method Finish(confirmed: bool) returns (r: Result<()>)
      requires Valid()
      modifies this
      ensures Valid()
      ensures kind == old(kind) && pools == old(pools) && nextId == old(nextId)
      ensures old(status) != Open ==> r == Err(NoOpenJornada)
      ensures old(status) == Open && old(pools) == [] ==> r == Err(NoPools)
      ensures old(status) == Open && old(pools) != [] && PendingCount(old(pools)) > 0 ==>
                r == Err(PendingPools(PendingCount(old(pools))))
      ensures old(status) == Open && CanFinish(old(pools)) && !confirmed ==> r == Err(Cancelled)
      ensures r.Ok? <==> old(status) == Open && CanFinish(old(pools)) && confirmed
      ensures status == (if r.Ok? then Completed else old(status))
    {
      if status != Open {
        return Err(NoOpenJornada);
      }
      if |pools| == 0 {
        return Err(NoPools);
      }
      var pending := PendingCount(pools);
      CanFinishIffGuards(pools);
      if pending > 0 {
        return Err(PendingPools(pending));
      }
      if !confirmed {
        return Err(Cancelled);
      }
      status := Completed;
      return Ok(());
    }
  }
}
