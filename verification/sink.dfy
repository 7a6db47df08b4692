/** The sinking transformation (`findPartialDeadStores`): every block whose
    IN store is set receives a copy of that store at its front, and the OUT
    stores of those blocks' predecessors are erased. */
module Sinking {
  import opened Ir
  import opened Dataflow

  /** An id above every id in `ops`; copies are numbered from here on. */
  function FreshId(ops: seq<Op>): (r: nat)
    ensures forall o :: o in ops ==> o.id < r
  {
    if |ops| == 0 then 0
    else
      var rest := FreshId(ops[1..]);
      if ops[0].id >= rest then ops[0].id + 1 else rest
  }

  /** A copy of `w` under a new identity. */
  function Clone(w: Op, id: nat): (r: Op)
    ensures Identical(r, w) && r.id == id
  {
    w.(id := id)
  }

  /** The copy placed at the front of block `b`, if its IN store is set. */
  function Inserted(f: Func, s: seq<Summary>, b: nat): (r: seq<Op>)
    requires b < |s|
    ensures |r| <= 1
    ensures |r| == 1 <==> s[b].inStore.Some?
    ensures |r| == 1 ==> Identical(r[0], s[b].inStore.value) && r[0].id >= FreshId(Flatten(f.blocks))
  {
    if s[b].inStore.Some? then [Clone(s[b].inStore.value, FreshId(Flatten(f.blocks)) + b)] else []
  }

  /** The stores recorded as partially dead from block `b` on: the non-null
      OUT store of every predecessor of a block whose IN is set. */
  ghost function DeadFrom(f: Func, s: seq<Summary>, b: nat): set<Op>
    requires WellFormed(f) && |s| == |f.blocks|
  {
    set k, p | b <= k < |s| && s[k].inStore.Some? && p in Preds(f, k) && s[p].outStore.Some? :: s[p].outStore.value
  }

  ghost function DeadStores(f: Func, s: seq<Summary>): set<Op>
    requires WellFormed(f) && |s| == |f.blocks|
  {
    DeadFrom(f, s, 0)
  }

  /** The inner loop: add each predecessor's OUT store to `pds`. */
  function Collect(s: seq<Summary>, preds: seq<nat>, pds: set<Op>): (r: set<Op>)
    requires forall k :: 0 <= k < |preds| ==> preds[k] < |s|
    ensures forall w :: w in r <==> w in pds || exists p :: p in preds && s[p].outStore == Some(w)
  {
    if |preds| == 0 then pds
    else
      var out := s[preds[0]].outStore;
      Collect(s, preds[1..], if out.Some? then pds + {out.value} else pds)
  }

  /** The block loop from block `b`: insert the copies and collect the dead stores. */
  function SinkFrom(f: Func, s: seq<Summary>, b: nat, blocks: seq<Block>, pds: set<Op>): (r: (seq<Block>, set<Op>))
    requires WellFormed(f) && |s| == |f.blocks| == |blocks| && b <= |s|
    ensures |r.0| == |blocks|
    ensures forall k :: 0 <= k < b ==> r.0[k] == blocks[k]
    ensures forall k :: b <= k < |blocks| ==> r.0[k] == Inserted(f, s, k) + blocks[k]
    ensures r.1 == pds + DeadFrom(f, s, b)
    decreases |s| - b
  {
    if b == |s| then (blocks, pds)
    else
      var preds := Preds(f, b);
      var r := if s[b].inStore.Some? then
        SinkFrom(f, s, b + 1, blocks[b := Inserted(f, s, b) + blocks[b]], Collect(s, preds, pds))
      else
        SinkFrom(f, s, b + 1, blocks, pds);
      DeadFromStep(f, s, b);
      r
  }

  lemma DeadFromStep(f: Func, s: seq<Summary>, b: nat)
    requires WellFormed(f) && |s| == |f.blocks| && b < |s|
    ensures s[b].inStore.None? ==> DeadFrom(f, s, b) == DeadFrom(f, s, b + 1)
    ensures s[b].inStore.Some? ==> forall w ::
              w in DeadFrom(f, s, b) <==> w in DeadFrom(f, s, b + 1) || exists p :: p in Preds(f, b) && s[p].outStore == Some(w)
  {
    if s[b].inStore.Some? {
      forall w | w in DeadFrom(f, s, b) && w !in DeadFrom(f, s, b + 1)
        ensures exists p :: p in Preds(f, b) && s[p].outStore == Some(w)
      {
        var k, p :| b <= k < |s| && s[k].inStore.Some? && p in Preds(f, k) && s[p].outStore.Some? && w == s[p].outStore.value;
        assert k == b;
      }
    }
  }

  /** Erase every instruction of `pds` from the block it sits in. */
  function EraseAll(blocks: seq<Block>, pds: set<Op>): (r: seq<Block>)
    ensures |r| == |blocks|
    ensures forall k, o :: 0 <= k < |r| ==> (o in r[k] <==> o in blocks[k] && o !in pds)
    ensures forall k :: 0 <= k < |r| ==> |r[k]| <= |blocks[k]|
    ensures forall k :: 0 <= k < |r| ==> r[k] == Without(blocks[k], pds)
  {
    seq(|blocks|, k requires 0 <= k < |blocks| => Without(blocks[k], pds))
  }

  /** Erasing stores to `v` leaves every other instruction in place and in order. */
  lemma EraseKeepsOthers(blocks: seq<Block>, pds: set<Op>, v: nat)
    requires forall w :: w in pds ==> IsStoreTo(w, v)
    ensures forall k :: 0 <= k < |blocks| ==> DropStoresTo(EraseAll(blocks, pds)[k], v) == DropStoresTo(blocks[k], v)
  {
    forall k | 0 <= k < |blocks|
      ensures DropStoresTo(EraseAll(blocks, pds)[k], v) == DropStoresTo(blocks[k], v)
    {
      DropStoresWithout(blocks[k], pds, v);
    }
  }

  /** findPartialDeadStores: the new function, and whether anything was erased. */
  function Sink(f: Func, s: seq<Summary>): (r: (Func, bool))
    requires WellFormed(f) && |s| == |f.blocks|
    ensures WellFormed(r.0) && r.0.succ == f.succ && |r.0.blocks| == |f.blocks|
    ensures r.1 <==> DeadStores(f, s) != {}
    ensures forall b :: 0 <= b < |f.blocks| ==>
              r.0.blocks[b] == Without(Inserted(f, s, b) + f.blocks[b], DeadStores(f, s))
    ensures !r.1 ==> forall b :: 0 <= b < |f.blocks| ==> r.0.blocks[b] == Inserted(f, s, b) + f.blocks[b]
  {
    var (blocks, pds) := SinkFrom(f, s, 0, f.blocks, {});
    assert pds == DeadStores(f, s);
    assert forall b :: 0 <= b < |f.blocks| ==> blocks[b] == Inserted(f, s, b) + f.blocks[b];
    if pds == {} then
      NothingErased(blocks);
      (Func(blocks, f.succ), false)
    else
      (Func(EraseAll(blocks, pds), f.succ), true)
  }

  lemma NothingErased(blocks: seq<Block>)
    ensures forall b :: 0 <= b < |blocks| ==> Without(blocks[b], {}) == blocks[b]
  {
    forall b | 0 <= b < |blocks| {
      WithoutNothing(blocks[b]);
    }
  }

  /** With no IN set anywhere, sinking returns the function unchanged. */
  lemma NothingToSink(f: Func, s: seq<Summary>)
    requires WellFormed(f) && |s| == |f.blocks|
    requires forall b :: 0 <= b < |s| ==> s[b].inStore.None?
    ensures Sink(f, s) == (f, false)
  {
    assert DeadStores(f, s) == {};
    var r := Sink(f, s);
    forall b | 0 <= b < |f.blocks|
      ensures r.0.blocks[b] == f.blocks[b]
    {
      assert Inserted(f, s, b) == [];
      assert r.0.blocks[b] == [] + f.blocks[b];
    }
    assert r.0.blocks == f.blocks;
  }

  /** On summaries the analysis produced, the erased stores are stores of `v`
      in the function, every copy survives, and apart from stores of `v`
      every block keeps its instructions in order. */
  lemma SinkSound(f: Func, v: nat, s: seq<Summary>)
    requires WellFormed(f) && |s| == |f.blocks| && Sound(f, v, s)
    ensures forall w :: w in DeadStores(f, s) ==> IsStoreTo(w, v) && w in Flatten(f.blocks)
    ensures forall b :: 0 <= b < |f.blocks| ==>
              Sink(f, s).0.blocks[b] == Inserted(f, s, b) + Without(f.blocks[b], DeadStores(f, s))
    ensures forall b :: 0 <= b < |f.blocks| ==>
              DropStoresTo(Sink(f, s).0.blocks[b], v) == DropStoresTo(f.blocks[b], v)
  {
    DeadAreStores(f, v, s);
    forall b | 0 <= b < |f.blocks|
      ensures Sink(f, s).0.blocks[b] == Inserted(f, s, b) + Without(f.blocks[b], DeadStores(f, s))
      ensures DropStoresTo(Sink(f, s).0.blocks[b], v) == DropStoresTo(f.blocks[b], v)
    {
      SinkBlockSound(f, v, s, b);
    }
  }

  /** Every recorded dead store is a store of `v` in the function. */
  lemma DeadAreStores(f: Func, v: nat, s: seq<Summary>)
    requires WellFormed(f) && |s| == |f.blocks| && Sound(f, v, s)
    ensures forall w :: w in DeadStores(f, s) ==> IsStoreTo(w, v) && w in Flatten(f.blocks)
  {
    forall w | w in DeadStores(f, s)
      ensures IsStoreTo(w, v) && w in Flatten(f.blocks)
    {
      var k, p :| 0 <= k < |s| && s[k].inStore.Some? && p in Preds(f, k) && s[p].outStore.Some? && w == s[p].outStore.value;
      assert BlockSound(f, v, s, p);
    }
  }

  /** Block `b` after sinking: its copy, then its own instructions minus the
      dead stores; nothing but stores of `v` differs. */
  lemma SinkBlockSound(f: Func, v: nat, s: seq<Summary>, b: nat)
    requires WellFormed(f) && |s| == |f.blocks| && Sound(f, v, s) && b < |f.blocks|
    requires forall w :: w in DeadStores(f, s) ==> IsStoreTo(w, v) && w in Flatten(f.blocks)
    ensures Sink(f, s).0.blocks[b] == Inserted(f, s, b) + Without(f.blocks[b], DeadStores(f, s))
    ensures DropStoresTo(Sink(f, s).0.blocks[b], v) == DropStoresTo(f.blocks[b], v)
  {
    var d := DeadStores(f, s);
    var ins := Inserted(f, s, b);
    WithoutAppend(ins, f.blocks[b], d);
    CopyKept(f, s, b, d);
    CopyIsStore(f, v, s, b);
    DropStoresAppend(ins, Without(f.blocks[b], d), v);
    DropStoresWithout(f.blocks[b], d, v);
  }

  /** The copy is new, so erasing instructions of the function never erases it. */
  lemma CopyKept(f: Func, s: seq<Summary>, b: nat, d: set<Op>)
    requires WellFormed(f) && |s| == |f.blocks| && b < |f.blocks|
    requires forall w :: w in d ==> w in Flatten(f.blocks)
    ensures Without(Inserted(f, s, b), d) == Inserted(f, s, b)
  {
    var ins := Inserted(f, s, b);
    if |ins| == 1 {
      assert ins[0] !in d;
      assert ins == [ins[0]] && ins[1..] == [];
    }
  }

  /** On sound summaries the copy is a store of `v`. */
  lemma CopyIsStore(f: Func, v: nat, s: seq<Summary>, b: nat)
    requires WellFormed(f) && |s| == |f.blocks| && Sound(f, v, s) && b < |f.blocks|
    ensures DropStoresTo(Inserted(f, s, b), v) == []
  {
    var ins := Inserted(f, s, b);
    if |ins| == 1 {
      assert BlockSound(f, v, s, b);
      assert IsStoreTo(ins[0], v);
      assert ins[1..] == [];
    }
  }
}
