/** The analysis loop of the pass's entry point: enumerate the allocation
    sites once, then for each one alternate analysis and sinking until
    sinking erases nothing, and finish with the local cleanup. */
module Driver {
  import opened Ir
  import opened Allocas
  import opened Dataflow
  import opened Sinking
  import opened Cleanup

  /** The `while (true)` loop for allocation `v`, bounded by `rounds`
      rounds; each analysis is bounded by `sweeps` sweeps. */
  function SinkLoop(f: Func, v: nat, rounds: nat, sweeps: nat): (r: Func)
    requires WellFormed(f)
    ensures WellFormed(r) && r.succ == f.succ && |r.blocks| == |f.blocks|
    ensures forall b :: 0 <= b < |f.blocks| ==> DropStoresTo(r.blocks[b], v) == DropStoresTo(f.blocks[b], v)
    decreases rounds
  {
    if rounds == 0 then f
    else
      var s := Analyze(f, v, sweeps);
      SinkSound(f, v, s);
      var (next, changed) := Sink(f, s);
      if !changed then next else SinkLoop(next, v, rounds - 1, sweeps)
  }

  /** Sinking to a fixpoint, then rmDup, for one allocation site. */
  function ProcessVar(f: Func, v: nat, rounds: nat, sweeps: nat): (r: Func)
    requires WellFormed(f)
    ensures WellFormed(r) && r.succ == f.succ && |r.blocks| == |f.blocks|
    ensures forall b :: 0 <= b < |f.blocks| ==> DropStoresTo(r.blocks[b], v) == DropStoresTo(f.blocks[b], v)
  {
    RmDup(SinkLoop(f, v, rounds, sweeps), v)
  }

  /** The loop over the allocation sites `sites`, in order. */
  function ProcessAll(f: Func, sites: seq<Op>, rounds: nat, sweeps: nat): (r: Func)
    requires WellFormed(f)
    ensures WellFormed(r) && r.succ == f.succ && |r.blocks| == |f.blocks|
    ensures forall b :: 0 <= b < |f.blocks| ==> NonStores(r.blocks[b]) == NonStores(f.blocks[b])
    decreases |sites|
  {
    if |sites| == 0 then f
    else
      var g := ProcessVar(f, sites[0].id, rounds, sweeps);
      ProcessVarKeepsNonStores(f, sites[0].id, rounds, sweeps);
      ProcessAll(g, sites[1..], rounds, sweeps)
  }

  lemma ProcessVarKeepsNonStores(f: Func, v: nat, rounds: nat, sweeps: nat)
    requires WellFormed(f)
    ensures forall b :: 0 <= b < |f.blocks| ==>
              NonStores(ProcessVar(f, v, rounds, sweeps).blocks[b]) == NonStores(f.blocks[b])
  {
    var g := ProcessVar(f, v, rounds, sweeps);
    forall b | 0 <= b < |f.blocks|
      ensures NonStores(g.blocks[b]) == NonStores(f.blocks[b])
    {
      NonStoresOfDrop(g.blocks[b], v);
      NonStoresOfDrop(f.blocks[b], v);
    }
  }

  /** The pass on one function: only stores are inserted or erased, the CFG
      is untouched, and the allocation sites are the ones it started with. */
  function Run(f: Func, rounds: nat, sweeps: nat): (r: Func)
    requires WellFormed(f)
    ensures WellFormed(r) && r.succ == f.succ && |r.blocks| == |f.blocks|
    ensures forall b :: 0 <= b < |f.blocks| ==> NonStores(r.blocks[b]) == NonStores(f.blocks[b])
    ensures GetAllocas(r) == GetAllocas(f)
  {
    var r := ProcessAll(f, GetAllocas(f), rounds, sweeps);
    SameAllocas(r.blocks, f.blocks);
    r
  }

  lemma {:induction false} AllocasOfNonStores(ops: seq<Op>)
    ensures Keep(NonStores(ops), IsAlloca) == Keep(ops, IsAlloca)
  {
    if |ops| > 0 {
      AllocasOfNonStores(ops[1..]);
      var head := if ops[0].Store? then [] else [ops[0]];
      KeepAppend(head, NonStores(ops[1..]), IsAlloca);
    }
  }

  /** Blocks that agree on everything but stores have the same allocation sites. */
  lemma {:induction false} SameAllocas(a: seq<Block>, c: seq<Block>)
    requires |a| == |c|
    requires forall b :: 0 <= b < |a| ==> NonStores(a[b]) == NonStores(c[b])
    ensures Keep(Flatten(a), IsAlloca) == Keep(Flatten(c), IsAlloca)
  {
    if |a| > 0 {
      SameAllocas(a[1..], c[1..]);
      KeepAppend(a[0], Flatten(a[1..]), IsAlloca);
      KeepAppend(c[0], Flatten(c[1..]), IsAlloca);
      AllocasOfNonStores(a[0]);
      AllocasOfNonStores(c[0]);
    }
  }
}
