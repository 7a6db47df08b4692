/** The per-variable dataflow analysis (`findGenKillInOut`): a local GEN/KILL
    scan of every block, a hazard override for blocks whose adjacent
    successors reach one another, then repeated sweeps that merge the
    predecessors' OUT stores into each block's IN store. */
module Dataflow {
  import opened Ir
  import opened Reach

  /** The analysis record of one block for one allocation site; `None`
      stands for a null instruction pointer. */
  datatype Summary = Summary(gen: Option<Op>, kill: bool, inStore: Option<Op>, outStore: Option<Op>)

  /** A store to, or a load from, allocation `v`. */
  predicate IsEvent(o: Op, v: nat)
  {
    IsStoreTo(o, v) || IsLoadOf(o, v)
  }

  /** `ops[i]` is the last event on `v` in `ops`. */
  predicate LastEventAt(ops: seq<Op>, v: nat, i: nat)
    requires i < |ops|
  {
    IsEvent(ops[i], v) && forall j :: i < j < |ops| ==> !IsEvent(ops[j], v)
  }

  /** The (gen, kill) pair an event leaves behind. */
  function EventEffect(o: Op): (Option<Op>, bool)
  {
    if o.Store? then (Some(o), false) else (None, true)
  }

  /** The forward scan over a block, starting from (gen, kill). */
  function Scan(ops: seq<Op>, v: nat, gen: Option<Op>, kill: bool): (r: (Option<Op>, bool))
    ensures (forall i :: 0 <= i < |ops| ==> !IsEvent(ops[i], v)) ==> r == (gen, kill)
    ensures forall i :: 0 <= i < |ops| && LastEventAt(ops, v, i) ==> r == EventEffect(ops[i])
    ensures r.0.Some? ==> r.0 == gen || (IsStoreTo(r.0.value, v) && r.0.value in ops)
    ensures (gen.Some? ==> !kill) ==> (r.0.Some? ==> !r.1)
    decreases |ops|
  {
    if |ops| == 0 then (gen, kill)
    else
      var o := ops[0];
      var acc := if IsStoreTo(o, v) then (Some(o), false) else if IsLoadOf(o, v) then (None, true) else (gen, kill);
      assert forall i :: 0 < i < |ops| ==> ops[1..][i - 1] == ops[i];
      Scan(ops[1..], v, acc.0, acc.1)
  }

  /** Adjacent successors `ss[j]` and `ss[j + 1]`, one of which reaches the other. */
  predicate AdjacentHazard(f: Func, ss: seq<nat>, j: nat)
    requires WellFormed(f) && (forall k :: 0 <= k < |ss| ==> ss[k] < |f.blocks|) && j + 1 < |ss|
  {
    PathExists(f, ss[j], ss[j + 1]) || PathExists(f, ss[j + 1], ss[j])
  }

  /** The loop over adjacent successor pairs from index `i`, stopping at the first hazard. */
  function HazardFrom(f: Func, ss: seq<nat>, i: nat): (r: bool)
    requires WellFormed(f) && forall k :: 0 <= k < |ss| ==> ss[k] < |f.blocks|
    ensures r <==> exists j :: i <= j && j + 1 < |ss| && AdjacentHazard(f, ss, j)
    decreases |ss| - i
  {
    if i + 1 >= |ss| then false
    else if AdjacentHazard(f, ss, i) then true
    else HazardFrom(f, ss, i + 1)
  }

  /** Block `b` has two adjacent successors that are not independent. */
  predicate Hazard(f: Func, b: nat)
    requires WellFormed(f) && b < |f.blocks|
  {
    HazardFrom(f, f.succ[b], 0)
  }

  /** The local summary of block `b`: the scan, then the hazard override;
      IN and OUT start out null. */
  function LocalSummary(f: Func, v: nat, b: nat): (r: Summary)
    requires WellFormed(f) && b < |f.blocks|
    ensures r.inStore.None? && r.outStore.None?
    ensures Hazard(f, b) ==> r.gen.None? && r.kill
    ensures !Hazard(f, b) ==> (r.gen, r.kill) == Scan(f.blocks[b], v, None, false)
    ensures r.gen.Some? ==> !r.kill && IsStoreTo(r.gen.value, v) && r.gen.value in f.blocks[b]
  {
    var (gen, kill) := Scan(f.blocks[b], v, None, false);
    if Hazard(f, b) then Summary(None, true, None, None)
    else Summary(gen, kill, None, None)
  }

  /** The summaries every call starts from. */
  function Init(f: Func, v: nat): (r: seq<Summary>)
    requires WellFormed(f)
    ensures |r| == |f.blocks|
    ensures forall b :: 0 <= b < |r| ==> r[b].inStore.None? && r[b].outStore.None?
    ensures forall b :: 0 <= b < |r| ==> Hazard(f, b) ==> r[b].gen.None? && r[b].kill
    ensures forall b :: 0 <= b < |r| ==> !Hazard(f, b) ==> (r[b].gen, r[b].kill) == Scan(f.blocks[b], v, None, false)
    ensures forall b :: 0 <= b < |r| ==> r[b] == LocalSummary(f, v, b)
  {
    seq(|f.blocks|, b requires 0 <= b < |f.blocks| => LocalSummary(f, v, b))
  }

  /** Every predecessor's OUT is a store identical to `w`. */
  predicate AllOutsIdentical(s: seq<Summary>, preds: seq<nat>, w: Op)
    requires forall k :: 0 <= k < |preds| ==> preds[k] < |s|
  {
    forall p :: p in preds ==> s[p].outStore.Some? && Identical(s[p].outStore.value, w)
  }

  /** The merge loop over `preds`, starting from the block's current IN `cur`. */
  function Merge(s: seq<Summary>, preds: seq<nat>, cur: Option<Op>): (r: Option<Op>)
    requires forall k :: 0 <= k < |preds| ==> preds[k] < |s|
    ensures |preds| == 0 ==> r == cur
    ensures (exists p :: p in preds && s[p].outStore.None?) ==> r.None?
    ensures |preds| > 0 && r.Some? ==> AllOutsIdentical(s, preds, r.value)
    ensures |preds| > 0 && cur.Some? ==>
              (r.Some? <==> AllOutsIdentical(s, preds, cur.value)) && (r.Some? ==> r == cur)
    ensures |preds| > 0 && cur.None? ==>
              (r.Some? <==> s[preds[0]].outStore.Some? && AllOutsIdentical(s, preds, s[preds[0]].outStore.value))
              && (r.Some? ==> r == s[preds[0]].outStore)
    decreases |preds|
  {
    if |preds| == 0 then cur
    else
      var out := s[preds[0]].outStore;
      if out.None? then None
      else if cur.None? then Merge(s, preds[1..], out)
      else if !Identical(cur.value, out.value) then None
      else Merge(s, preds[1..], cur)
  }

  /** The OUT update: GEN if set, else IN unless killed, else the old OUT. */
  function TransferOut(gen: Option<Op>, kill: bool, inStore: Option<Op>, outStore: Option<Op>): Option<Op>
  {
    if gen.Some? then gen else if !kill then inStore else outStore
  }

  /** From a null OUT the transfer yields exactly the settled OUT; otherwise
      it yields the settled OUT or keeps the old one. */
  lemma TransferOutSettles(gen: Option<Op>, kill: bool, inStore: Option<Op>, outStore: Option<Op>)
    ensures outStore.None? ==> TransferOut(gen, kill, inStore, outStore) == ExpectedOut(Summary(gen, kill, inStore, outStore))
    ensures TransferOut(gen, kill, inStore, outStore) == ExpectedOut(Summary(gen, kill, inStore, outStore))
            || TransferOut(gen, kill, inStore, outStore) == outStore
  {
  }

  /** The OUT a block has once its IN is final: GEN, else IN unless killed, else null. */
  function ExpectedOut(x: Summary): Option<Op>
  {
    if x.gen.Some? then x.gen else if !x.kill then x.inStore else None
  }

  /** The update of block `b` inside a sweep: merge, then transfer. */
  function Step(f: Func, s: seq<Summary>, b: nat): (r: seq<Summary>)
    requires WellFormed(f) && |s| == |f.blocks| && b < |s|
    ensures |r| == |s|
    ensures forall k :: 0 <= k < |s| && k != b ==> r[k] == s[k]
  {
    var x := s[b];
    var newIn := Merge(s, Preds(f, b), x.inStore);
    s[b := x.(inStore := newIn, outStore := TransferOut(x.gen, x.kill, newIn, x.outStore))]
  }

  /** One block update: GEN and KILL stay, a block without predecessors keeps
      its IN, a set IN is backed by identical OUTs on all predecessors, and
      a null OUT becomes the one GEN, KILL and the new IN determine. */
  lemma StepUpdates(f: Func, s: seq<Summary>, b: nat)
    requires WellFormed(f) && |s| == |f.blocks| && b < |s|
    ensures Step(f, s, b)[b].gen == s[b].gen && Step(f, s, b)[b].kill == s[b].kill
    ensures |Preds(f, b)| == 0 ==> Step(f, s, b)[b].inStore == s[b].inStore
    ensures Step(f, s, b)[b].inStore.Some? && |Preds(f, b)| > 0 ==>
              AllOutsIdentical(s, Preds(f, b), Step(f, s, b)[b].inStore.value)
    ensures s[b].outStore.None? ==> Step(f, s, b)[b].outStore == ExpectedOut(Step(f, s, b)[b])
  {
  }

  /** One sweep over blocks `b` onwards. Blocks are updated in place, so a
      block sees the updates of the blocks before it; `change` is overwritten
      by every block. */
  function PassFrom(f: Func, s: seq<Summary>, b: nat, change: bool): (r: (seq<Summary>, bool))
    requires WellFormed(f) && |s| == |f.blocks| && b <= |s|
    ensures |r.0| == |s|
    ensures forall k :: 0 <= k < |s| ==> r.0[k].gen == s[k].gen && r.0[k].kill == s[k].kill
    ensures forall k :: 0 <= k < b ==> r.0[k] == s[k]
    ensures b < |s| ==> (r.1 <==> r.0[|s| - 1].inStore != s[|s| - 1].inStore)
    ensures b == |s| ==> r.1 == change
    decreases |s| - b
  {
    if b == |s| then (s, change)
    else
      var next := Step(f, s, b);
      PassFrom(f, next, b + 1, s[b].inStore != next[b].inStore)
  }

  function Pass(f: Func, s: seq<Summary>): (r: (seq<Summary>, bool))
    requires WellFormed(f) && |s| == |f.blocks|
  {
    PassFrom(f, s, 0, true)
  }

  /** The `while (change)` loop, bounded by `fuel` sweeps. */
  function Iterate(f: Func, s: seq<Summary>, change: bool, fuel: nat): (r: seq<Summary>)
    requires WellFormed(f) && |s| == |f.blocks|
    ensures |r| == |s|
    decreases fuel
  {
    if !change || fuel == 0 then s
    else
      var p := Pass(f, s);
      Iterate(f, p.0, p.1, fuel - 1)
  }

  /** The sweeps never touch GEN or KILL. */
  lemma {:induction false} IterateKeepsGenKill(f: Func, s: seq<Summary>, change: bool, fuel: nat)
    requires WellFormed(f) && |s| == |f.blocks|
    ensures forall k :: 0 <= k < |s| ==>
              Iterate(f, s, change, fuel)[k].gen == s[k].gen && Iterate(f, s, change, fuel)[k].kill == s[k].kill
    decreases fuel
  {
    if change && fuel > 0 {
      var p := Pass(f, s);
      IterateKeepsGenKill(f, p.0, p.1, fuel - 1);
    }
  }

  /** `o` is null or a store to `v` that occurs in the function. */
  predicate StoreOf(f: Func, v: nat, o: Option<Op>)
  {
    o.Some? ==> IsStoreTo(o.value, v) && o.value in Flatten(f.blocks)
  }

  /** What every analysis state keeps: the local GEN/KILL results, summaries
      that name only stores of `v` in the function, a killed block without
      GEN has a null OUT, and a block without predecessors has a null IN. */
  predicate Sound(f: Func, v: nat, s: seq<Summary>)
    requires WellFormed(f) && |s| == |f.blocks|
  {
    forall b :: 0 <= b < |s| ==> BlockSound(f, v, s, b)
  }

  predicate BlockSound(f: Func, v: nat, s: seq<Summary>, b: nat)
    requires WellFormed(f) && |s| == |f.blocks| && b < |s|
  {
      && s[b].gen == LocalSummary(f, v, b).gen
      && s[b].kill == LocalSummary(f, v, b).kill
      && StoreOf(f, v, s[b].gen)
      && StoreOf(f, v, s[b].inStore)
      && StoreOf(f, v, s[b].outStore)
      && (s[b].gen.None? && s[b].kill ==> s[b].outStore.None?)
      && (|Preds(f, b)| == 0 ==> s[b].inStore.None?)
  }

  /** Every block's OUT is what its GEN, KILL and IN determine. */
  predicate Settled(s: seq<Summary>)
  {
    forall b :: 0 <= b < |s| ==> BlockSettled(s, b)
  }

  predicate BlockSettled(s: seq<Summary>, b: nat)
    requires b < |s|
  {
    s[b].outStore == ExpectedOut(s[b])
  }

  lemma InitSound(f: Func, v: nat)
    requires WellFormed(f)
    ensures Sound(f, v, Init(f, v))
  {
    var s := Init(f, v);
    forall b | 0 <= b < |s|
      ensures BlockSound(f, v, s, b)
    {
      if s[b].gen.Some? {
        assert s[b].gen.value in f.blocks[b];
      }
    }
  }

  /** Updating one block keeps the invariants and leaves that block settled. */
  lemma StepSound(f: Func, v: nat, s: seq<Summary>, b: nat)
    requires WellFormed(f) && |s| == |f.blocks| && b < |s| && Sound(f, v, s)
    ensures Sound(f, v, Step(f, s, b))
    ensures Step(f, s, b)[b].outStore == ExpectedOut(Step(f, s, b)[b])
  {
    var x := s[b];
    var preds := Preds(f, b);
    var newIn := Merge(s, preds, x.inStore);
    var next := Step(f, s, b);
    assert next[b] == x.(inStore := newIn, outStore := TransferOut(x.gen, x.kill, newIn, x.outStore));
    assert BlockSound(f, v, s, b);
    if |preds| > 0 && newIn.Some? {
      assert newIn == x.inStore || newIn == s[preds[0]].outStore;
      assert preds[0] < |s| && BlockSound(f, v, s, preds[0]);
    }
    assert StoreOf(f, v, newIn);
    forall k | 0 <= k < |next|
      ensures BlockSound(f, v, next, k)
    {
      assert BlockSound(f, v, s, k);
    }
  }

  /** A sweep keeps the invariants, and every block it updates ends settled. */
  lemma {:induction false} PassFromSound(f: Func, v: nat, s: seq<Summary>, b: nat, change: bool)
    requires WellFormed(f) && |s| == |f.blocks| && b <= |s| && Sound(f, v, s)
    ensures Sound(f, v, PassFrom(f, s, b, change).0)
    ensures forall k :: b <= k < |s| ==>
              PassFrom(f, s, b, change).0[k].outStore == ExpectedOut(PassFrom(f, s, b, change).0[k])
    decreases |s| - b
  {
    if b < |s| {
      var next := Step(f, s, b);
      StepSound(f, v, s, b);
      var flag := s[b].inStore != next[b].inStore;
      assert PassFrom(f, s, b, change) == PassFrom(f, next, b + 1, flag);
      PassFromSound(f, v, next, b + 1, flag);
    }
  }

  lemma IterateSound(f: Func, v: nat, s: seq<Summary>, change: bool, fuel: nat)
    requires WellFormed(f) && |s| == |f.blocks| && Sound(f, v, s)
    ensures Sound(f, v, Iterate(f, s, change, fuel))
    ensures (change && fuel > 0) || Settled(s) ==> Settled(Iterate(f, s, change, fuel))
  {
    var r := Iterate(f, s, change, fuel);
    IterateKeepsSound(f, v, s, change, fuel, r);
    IterateSettles(f, v, s, change, fuel, r);
  }

  /** Every sweep keeps the invariant, so the state `r` the loop ends in has it. */
  lemma {:induction false} IterateKeepsSound(f: Func, v: nat, s: seq<Summary>, change: bool, fuel: nat, r: seq<Summary>)
    requires WellFormed(f) && |s| == |f.blocks| && Sound(f, v, s)
    requires r == Iterate(f, s, change, fuel)
    ensures |r| == |f.blocks| && Sound(f, v, r)
    decreases fuel
  {
    if change && fuel > 0 {
      var p := IterateNext(f, s, change, fuel, r);
      PassSound(f, v, s);
      IterateKeepsSound(f, v, p.0, p.1, fuel - 1, r);
    } else {
      IterateDone(f, s, change, fuel, r);
    }
  }

  lemma {:induction false} IterateSettles(f: Func, v: nat, s: seq<Summary>, change: bool, fuel: nat, r: seq<Summary>)
    requires WellFormed(f) && |s| == |f.blocks| && Sound(f, v, s)
    requires r == Iterate(f, s, change, fuel)
    ensures |r| == |f.blocks| && ((change && fuel > 0) || Settled(s) ==> Settled(r))
    decreases fuel
  {
    if change && fuel > 0 {
      var p := IterateNext(f, s, change, fuel, r);
      PassSettles(f, v, s);
      IterateSettles(f, v, p.0, p.1, fuel - 1, r);
    } else {
      IterateDone(f, s, change, fuel, r);
    }
  }

  /** One more round of the loop: the remaining rounds start from the sweep's result. */
  lemma IterateNext(f: Func, s: seq<Summary>, change: bool, fuel: nat, r: seq<Summary>) returns (p: (seq<Summary>, bool))
    requires WellFormed(f) && |s| == |f.blocks| && change && fuel > 0
    requires r == Iterate(f, s, change, fuel)
    ensures p == PassFrom(f, s, 0, true) && |p.0| == |f.blocks|
    ensures r == Iterate(f, p.0, p.1, fuel - 1)
  {
    p := PassFrom(f, s, 0, true);
    IterateUnfold(f, s, fuel);
  }

  /** The loop stops at once when nothing changed or no fuel is left. */
  lemma IterateDone(f: Func, s: seq<Summary>, change: bool, fuel: nat, r: seq<Summary>)
    requires WellFormed(f) && |s| == |f.blocks| && !(change && fuel > 0)
    requires r == Iterate(f, s, change, fuel)
    ensures r == s
  {
  }

  lemma PassSound(f: Func, v: nat, s: seq<Summary>)
    requires WellFormed(f) && |s| == |f.blocks| && Sound(f, v, s)
    ensures Sound(f, v, PassFrom(f, s, 0, true).0)
  {
    PassFromSound(f, v, s, 0, true);
  }

  lemma PassSettles(f: Func, v: nat, s: seq<Summary>)
    requires WellFormed(f) && |s| == |f.blocks| && Sound(f, v, s)
    ensures Sound(f, v, PassFrom(f, s, 0, true).0) && Settled(PassFrom(f, s, 0, true).0)
  {
    PassFromSound(f, v, s, 0, true);
  }

  /** Every set IN is backed by identical OUT stores on all predecessors, and
      every set OUT is the one GEN, KILL and IN determine. */
  predicate Coherent(f: Func, s: seq<Summary>)
    requires WellFormed(f) && |s| == |f.blocks|
  {
    forall b :: 0 <= b < |s| ==> BlockCoherent(f, s, b)
  }

  predicate BlockCoherent(f: Func, s: seq<Summary>, b: nat)
    requires WellFormed(f) && |s| == |f.blocks| && b < |s|
  {
      && (s[b].inStore.Some? ==> AllOutsIdentical(s, Preds(f, b), s[b].inStore.value))
      && (s[b].outStore.Some? ==> s[b].outStore == ExpectedOut(s[b]))
  }

  /** Updating a block never changes an OUT that is already set. */
  lemma StepKeepsSetOut(f: Func, v: nat, s: seq<Summary>, b: nat)
    requires WellFormed(f) && |s| == |f.blocks| && b < |s| && Sound(f, v, s) && Coherent(f, s)
    requires s[b].outStore.Some?
    ensures Step(f, s, b)[b].outStore == s[b].outStore
  {
    var x := s[b];
    assert BlockCoherent(f, s, b) && BlockSound(f, v, s, b);
    if x.gen.None? {
      assert !x.kill;
      assert Merge(s, Preds(f, b), x.inStore) == x.inStore;
    }
  }

  lemma StepCoherent(f: Func, v: nat, s: seq<Summary>, b: nat)
    requires WellFormed(f) && |s| == |f.blocks| && b < |s| && Sound(f, v, s) && Coherent(f, s)
    ensures Coherent(f, Step(f, s, b))
  {
    var next := Step(f, s, b);
    StepSound(f, v, s, b);
    if s[b].outStore.Some? {
      StepKeepsSetOut(f, v, s, b);
    }
    forall c | 0 <= c < |next|
      ensures BlockCoherent(f, next, c)
    {
      assert BlockCoherent(f, s, c);
      if next[c].inStore.Some? {
        var w := next[c].inStore.value;
        assert AllOutsIdentical(s, Preds(f, c), w);
        forall p | p in Preds(f, c)
          ensures next[p].outStore.Some? && Identical(next[p].outStore.value, w)
        {
          assert s[p].outStore.Some?;
        }
      }
    }
  }

  lemma {:induction false} PassFromCoherent(f: Func, v: nat, s: seq<Summary>, b: nat, change: bool)
    requires WellFormed(f) && |s| == |f.blocks| && b <= |s| && Sound(f, v, s) && Coherent(f, s)
    ensures Coherent(f, PassFrom(f, s, b, change).0)
    decreases |s| - b
  {
    if b < |s| {
      var next := Step(f, s, b);
      StepSound(f, v, s, b);
      StepCoherent(f, v, s, b);
      var flag := s[b].inStore != next[b].inStore;
      assert PassFrom(f, s, b, change) == PassFrom(f, next, b + 1, flag);
      PassFromCoherent(f, v, next, b + 1, flag);
    }
  }

  lemma {:induction false} IterateCoherent(f: Func, v: nat, s: seq<Summary>, change: bool, fuel: nat)
    requires WellFormed(f) && |s| == |f.blocks| && Sound(f, v, s) && Coherent(f, s)
    ensures Coherent(f, Iterate(f, s, change, fuel))
    decreases fuel
  {
    if change && fuel > 0 {
      PassKeeps(f, v, s);
      var p := PassFrom(f, s, 0, true);
      IterateCoherent(f, v, p.0, p.1, fuel - 1);
      CoherentBack(f, s, change, fuel);
    }
  }

  /** A sweep keeps both invariants. */
  lemma PassKeeps(f: Func, v: nat, s: seq<Summary>)
    requires WellFormed(f) && |s| == |f.blocks| && Sound(f, v, s) && Coherent(f, s)
    ensures Sound(f, v, PassFrom(f, s, 0, true).0) && Coherent(f, PassFrom(f, s, 0, true).0)
  {
    PassFromSound(f, v, s, 0, true);
    PassFromCoherent(f, v, s, 0, true);
  }

  /** The invariant after the remaining rounds is the invariant after all of them. */
  lemma CoherentBack(f: Func, s: seq<Summary>, change: bool, fuel: nat)
    requires WellFormed(f) && |s| == |f.blocks| && change && fuel > 0
    requires Coherent(f, Iterate(f, PassFrom(f, s, 0, true).0, PassFrom(f, s, 0, true).1, fuel - 1))
    ensures Coherent(f, Iterate(f, s, change, fuel))
  {
    IterateUnfold(f, s, fuel);
  }

  /** One round of the `while (change)` loop. */
  lemma IterateUnfold(f: Func, s: seq<Summary>, fuel: nat)
    requires WellFormed(f) && |s| == |f.blocks| && fuel > 0
    ensures Iterate(f, s, true, fuel) == Iterate(f, PassFrom(f, s, 0, true).0, PassFrom(f, s, 0, true).1, fuel - 1)
  {
  }

  /** The analysis of allocation `v`: summaries reset, then at most `fuel` sweeps. */
  function Analyze(f: Func, v: nat, fuel: nat): (r: seq<Summary>)
    requires WellFormed(f)
    ensures |r| == |f.blocks|
    ensures Sound(f, v, r)
    ensures forall b :: 0 <= b < |r| ==> (r[b].gen.Some? ==> !r[b].kill)
    ensures fuel > 0 ==> Settled(r)
    ensures forall b :: 0 <= b < |r| && r[b].inStore.Some? ==>
              |Preds(f, b)| > 0 && AllOutsIdentical(r, Preds(f, b), r[b].inStore.value)
  {
    InitSound(f, v);
    IterateSound(f, v, Init(f, v), true, fuel);
    IterateCoherent(f, v, Init(f, v), true, fuel);
    var r := Iterate(f, Init(f, v), true, fuel);
    BlockFacts(f, v, r);
    r
  }

  /** Under the invariants a set IN never changes: every predecessor's OUT
      is already identical to it, so the merge keeps it. */
  lemma StepKeepsSetIn(f: Func, v: nat, s: seq<Summary>, b: nat)
    requires WellFormed(f) && |s| == |f.blocks| && b < |s| && Sound(f, v, s) && Coherent(f, s)
    ensures forall k :: 0 <= k < |s| && s[k].inStore.Some? ==> Step(f, s, b)[k].inStore == s[k].inStore
  {
    assert BlockSound(f, v, s, b) && BlockCoherent(f, s, b);
  }

  lemma {:induction false} PassFromKeepsSetIns(f: Func, v: nat, s: seq<Summary>, b: nat, change: bool)
    requires WellFormed(f) && |s| == |f.blocks| && b <= |s| && Sound(f, v, s) && Coherent(f, s)
    ensures forall k :: 0 <= k < |s| && s[k].inStore.Some? ==> PassFrom(f, s, b, change).0[k].inStore == s[k].inStore
    decreases |s| - b
  {
    if b < |s| {
      var next := Step(f, s, b);
      StepKeepsSetIn(f, v, s, b);
      StepSound(f, v, s, b);
      StepCoherent(f, v, s, b);
      var flag := s[b].inStore != next[b].inStore;
      assert PassFrom(f, s, b, change) == PassFrom(f, next, b + 1, flag);
      PassFromKeepsSetIns(f, v, next, b + 1, flag);
    }
  }

  /** The `while (change)` loop runs at most two sweeps: the first can only
      report a change by setting the last block's IN, and a set IN stays as
      it is, so the second reports none. Any fuel of two or more therefore
      gives the same analysis. */
  lemma AnalyzeTwoSweeps(f: Func, v: nat, fuel: nat)
    requires WellFormed(f) && fuel >= 2
    ensures Analyze(f, v, fuel) == Analyze(f, v, 2)
  {
    var s0 := Init(f, v);
    if |f.blocks| == 0 {
      assert Analyze(f, v, fuel) == [] == Analyze(f, v, 2);
    } else {
      InitSound(f, v);
      assert Coherent(f, s0);
      PassKeeps(f, v, s0);
      var p1 := PassFrom(f, s0, 0, true);
      IterateUnfold(f, s0, fuel);
      IterateUnfold(f, s0, 2);
      if p1.1 {
        PassFromKeepsSetIns(f, v, p1.0, 0, true);
        var p2 := PassFrom(f, p1.0, 0, true);
        assert !p2.1;
        IterateUnfold(f, p1.0, fuel - 1);
        IterateUnfold(f, p1.0, 1);
        assert Iterate(f, p2.0, p2.1, fuel - 2) == p2.0 == Iterate(f, p2.0, p2.1, 0);
      } else {
        assert Iterate(f, p1.0, p1.1, fuel - 1) == p1.0 == Iterate(f, p1.0, p1.1, 1);
      }
    }
  }

  /** The invariants, read block by block. */
  lemma BlockFacts(f: Func, v: nat, s: seq<Summary>)
    requires WellFormed(f) && |s| == |f.blocks| && Sound(f, v, s) && Coherent(f, s)
    ensures forall b :: 0 <= b < |s| ==> (s[b].gen.Some? ==> !s[b].kill)
    ensures forall b :: 0 <= b < |s| && s[b].inStore.Some? ==>
              |Preds(f, b)| > 0 && AllOutsIdentical(s, Preds(f, b), s[b].inStore.value)
  {
    forall b | 0 <= b < |s|
      ensures s[b].gen.Some? ==> !s[b].kill
      ensures s[b].inStore.Some? ==> |Preds(f, b)| > 0 && AllOutsIdentical(s, Preds(f, b), s[b].inStore.value)
    {
      assert BlockSound(f, v, s, b) && BlockCoherent(f, s, b);
    }
  }

  /** A block two adjacent successors of which reach one another ends the
      analysis with no GEN and KILL set, whatever its instructions. */
  lemma HazardForcesKill(f: Func, v: nat, fuel: nat, b: nat, j: nat)
    requires WellFormed(f) && b < |f.blocks| && j + 1 < |f.succ[b]|
    requires PathExists(f, f.succ[b][j], f.succ[b][j + 1]) || PathExists(f, f.succ[b][j + 1], f.succ[b][j])
    ensures Analyze(f, v, fuel)[b].gen.None? && Analyze(f, v, fuel)[b].kill
  {
    assert AdjacentHazard(f, f.succ[b], j);
    assert BlockSound(f, v, Analyze(f, v, fuel), b);
  }
}
