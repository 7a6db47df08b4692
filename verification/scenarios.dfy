/** Small functions on which the pass's behaviour is worked out completely. */
module Scenarios {
  import opened Ir
  import opened Reach
  import opened Dataflow
  import opened Sinking
  import opened Cleanup

  /** Block 0 stores to allocation 0 and jumps to block 2, which jumps to
      block 1; block 3 stands alone and comes last in layout. */
  function LateJoin(): (f: Func)
    ensures WellFormed(f)
  {
    Func([[Alloca(0), Store(1, 0, 7)], [Other(2)], [Other(3)], [Other(4)]], [[2], [], [1], []])
  }

  /** The CFG facts of `LateJoin`: its predecessor lists, and no hazards. */
  lemma LateJoinShape(f: Func)
    requires f == LateJoin()
    ensures Preds(f, 0) == [] && Preds(f, 1) == [2] && Preds(f, 2) == [0] && Preds(f, 3) == []
    ensures !Hazard(f, 0) && !Hazard(f, 1) && !Hazard(f, 2) && !Hazard(f, 3)
  {
    assert PredsFrom(f, 0, 4) == [] && PredsFrom(f, 1, 4) == [] && PredsFrom(f, 2, 4) == [] && PredsFrom(f, 3, 4) == [];
    assert PredsFrom(f, 0, 3) == [] && PredsFrom(f, 1, 3) == [] && PredsFrom(f, 2, 3) == [] && PredsFrom(f, 3, 3) == [];
    assert PredsFrom(f, 0, 2) == [] && PredsFrom(f, 1, 2) == [2] && PredsFrom(f, 2, 2) == [] && PredsFrom(f, 3, 2) == [];
    assert PredsFrom(f, 0, 1) == [] && PredsFrom(f, 1, 1) == [2] && PredsFrom(f, 2, 1) == [] && PredsFrom(f, 3, 1) == [];
    assert PredsFrom(f, 0, 0) == [] && PredsFrom(f, 1, 0) == [2] && PredsFrom(f, 2, 0) == [0] && PredsFrom(f, 3, 0) == [];
  }

  /** The summaries of `LateJoin` after the first sweep: blocks 0 and 2 carry
      the store, block 1 has not seen it yet. */
  function LateJoinAfterOne(f: Func): seq<Summary>
    requires f == LateJoin()
  {
    var st := Store(1, 0, 7);
    Init(f, 0)[0 := Summary(Some(st), false, None, Some(st))][2 := Summary(None, false, Some(st), Some(st))]
  }

  /** The four block updates of the first sweep over `LateJoin`. */
  lemma LateJoinSteps(f: Func, s0: seq<Summary>, s1: seq<Summary>, s2: seq<Summary>)
    requires f == LateJoin() && s0 == Init(f, 0)
    requires s1 == s0[0 := Summary(Some(Store(1, 0, 7)), false, None, Some(Store(1, 0, 7)))]
    requires s2 == s1[2 := Summary(None, false, Some(Store(1, 0, 7)), Some(Store(1, 0, 7)))]
    ensures Step(f, s0, 0) == s1 && Step(f, s1, 1) == s1 && Step(f, s1, 2) == s2 && Step(f, s2, 3) == s2
    ensures s0[1] == Summary(None, false, None, None)
  {
    LateJoinShape(f);
    var st := Store(1, 0, 7);
    var none := Summary(None, false, None, None);
    assert s0[0] == Summary(Some(st), false, None, None);
    assert s0[1] == none && s0[2] == none && s0[3] == none;
  }

  /** The first sweep over `LateJoin` changes block 2's IN but ends with a
      false flag, because the last block's IN did not change. */
  lemma LateJoinFirstSweep(f: Func)
    requires f == LateJoin()
    ensures Pass(f, Init(f, 0)) == (LateJoinAfterOne(f), false)
    ensures LateJoinAfterOne(f)[1] == Summary(None, false, None, None)
  {
    var st := Store(1, 0, 7);
    var s0 := Init(f, 0);
    var s1 := s0[0 := Summary(Some(st), false, None, Some(st))];
    var s2 := s1[2 := Summary(None, false, Some(st), Some(st))];
    LateJoinSteps(f, s0, s1, s2);
    assert PassFrom(f, s2, 4, false) == (s2, false);
    assert PassFrom(f, s2, 3, true) == (s2, false);
    assert PassFrom(f, s1, 2, false) == (s2, false);
    assert PassFrom(f, s1, 1, false) == (s2, false);
  }

  /** A second sweep over `LateJoin` would set block 1's IN. */
  lemma LateJoinSecondSweep(f: Func)
    requires f == LateJoin()
    requires LateJoinAfterOne(f)[1] == Summary(None, false, None, None)
    ensures Pass(f, LateJoinAfterOne(f)).0[1].inStore == Some(Store(1, 0, 7))
  {
    LateJoinShape(f);
    var st := Store(1, 0, 7);
    var s2 := LateJoinAfterOne(f);
    assert s2[0] == Summary(Some(st), false, None, Some(st));
    assert s2[2] == Summary(None, false, Some(st), Some(st));
    var s3 := s2[1 := Summary(None, false, Some(st), Some(st))];
    assert Step(f, s2, 0) == s2;
    assert Step(f, s2, 1) == s3;
    assert PassFrom(f, s2, 0, true) == PassFrom(f, s2, 1, false);
    assert PassFrom(f, s2, 1, false) == PassFrom(f, s3, 2, true);
  }

  /** `change` is overwritten by every block: in the first sweep block 2's IN
      changes but the last block's does not, so the loop stops, although one
      more sweep would still set block 1's IN. */
  lemma StopsBeforeStable(f: Func)
    requires f == LateJoin()
    ensures Analyze(f, 0, 10)[1].inStore.None?
    ensures Pass(f, Analyze(f, 0, 10)).0[1].inStore == Some(Store(1, 0, 7))
  {
    LateJoinFirstSweep(f);
    LateJoinSecondSweep(f);
    assert Analyze(f, 0, 10) == LateJoinAfterOne(f);
  }

  /** Block 1 stores to allocation 0 and jumps to block 0, which comes first in layout. */
  function BackEdge(): (f: Func)
    ensures WellFormed(f)
  {
    Func([[Other(1)], [Alloca(0), Store(2, 0, 7)]], [[], [0]])
  }

  /** Only IN changes keep the loop going: the first sweep sets block 1's OUT
      but no IN, so the loop stops, although one more sweep would still set
      block 0's IN. */
  lemma OutChangeIgnored()
    ensures Analyze(BackEdge(), 0, 10)[0].inStore.None?
    ensures Pass(BackEdge(), Analyze(BackEdge(), 0, 10)).0[0].inStore == Some(Store(2, 0, 7))
  {
    var f := BackEdge();
    var st := Store(2, 0, 7);
    assert Preds(f, 0) == [1];
    assert Preds(f, 1) == [];
    assert !Hazard(f, 0) && !Hazard(f, 1);
    var s0 := Init(f, 0);
    assert s0[0] == Summary(None, false, None, None);
    assert s0[1] == Summary(Some(st), false, None, None);
    assert Merge(s0, [1], None) == None;
    assert Step(f, s0, 0) == s0;
    var s1 := [Summary(None, false, None, None), Summary(Some(st), false, None, Some(st))];
    assert Merge(s0, [], None) == None;
    assert Step(f, s0, 1) == s1;
    assert PassFrom(f, s1, 2, false) == (s1, false);
    assert PassFrom(f, s0, 1, false) == (s1, false);
    assert Pass(f, s0) == (s1, false);
    assert Analyze(f, 0, 10) == s1;
  }

  /** Block 0 branches to blocks 1, 2 and 3; block 1 jumps to block 3. */
  function ThreeWay(): (f: Func)
    ensures WellFormed(f)
  {
    Func([[Alloca(0), Store(1, 0, 5)], [], [], []], [[1, 2, 3], [3], [], []])
  }

  /** Only adjacent successors are compared: block 1 reaches block 3, yet
      block 0 keeps its GEN because neither adjacent pair is connected. */
  lemma OnlyAdjacentPairs()
    ensures PathExists(ThreeWay(), 1, 3)
    ensures !Hazard(ThreeWay(), 0)
    ensures LocalSummary(ThreeWay(), 0, 0).gen == Some(Store(1, 0, 5))
  {
    var f := ThreeWay();
    assert ReachWithin(f, 3, 3, 3);
    assert f.succ[1][0] == 3;
    assert ReachWithin(f, 1, 3, 4);
    assert !ReachWithin(f, 3, 2, 3);
    assert !ReachWithin(f, 1, 2, 4);
    assert !ReachWithin(f, 2, 1, 4);
    assert !ReachWithin(f, 2, 3, 4);
    assert !ReachWithin(f, 3, 2, 4);
    assert !HazardFrom(f, f.succ[0], 1);
    assert !HazardFrom(f, f.succ[0], 0);
    assert Scan([Store(1, 0, 5)], 0, None, false) == (Some(Store(1, 0, 5)), false);
  }

  /** Entry branches to blocks 1 and 2, which both store 7 to allocation 0
      and join at block 3, which loads it. */
  function Diamond(): (f: Func)
    ensures WellFormed(f)
  {
    Func([[Alloca(0)], [Store(1, 0, 7)], [Store(2, 0, 7)], [Load(3, 0)]], [[1, 2], [3], [3], []])
  }

  /** The predecessor lists of both two-way examples. */
  lemma DiamondPreds(f: Func)
    requires f.succ == [[1, 2], [3], [3], []] && |f.blocks| == 4
    ensures Preds(f, 0) == [] && Preds(f, 1) == [0] && Preds(f, 2) == [0] && Preds(f, 3) == [1, 2]
  {
    assert PredsFrom(f, 0, 4) == [] && PredsFrom(f, 1, 4) == [] && PredsFrom(f, 2, 4) == [] && PredsFrom(f, 3, 4) == [];
    assert PredsFrom(f, 0, 3) == [] && PredsFrom(f, 1, 3) == [] && PredsFrom(f, 2, 3) == [] && PredsFrom(f, 3, 3) == [];
    assert PredsFrom(f, 0, 2) == [] && PredsFrom(f, 1, 2) == [] && PredsFrom(f, 2, 2) == [] && PredsFrom(f, 3, 2) == [2];
    assert PredsFrom(f, 0, 1) == [] && PredsFrom(f, 1, 1) == [] && PredsFrom(f, 2, 1) == [] && PredsFrom(f, 3, 1) == [1, 2];
    assert PredsFrom(f, 0, 0) == [] && PredsFrom(f, 1, 0) == [0] && PredsFrom(f, 2, 0) == [0] && PredsFrom(f, 3, 0) == [1, 2];
  }

  /** Neither arm of the diamond reaches the other. */
  lemma DiamondArmsApart(f: Func)
    requires f.succ == [[1, 2], [3], [3], []] && |f.blocks| == 4
    ensures WellFormed(f) && !PathExists(f, 1, 2) && !PathExists(f, 2, 1)
  {
    assert !ReachWithin(f, 3, 2, 0) && !ReachWithin(f, 3, 1, 0);
    assert !ReachWithin(f, 3, 2, 1) && !ReachWithin(f, 3, 1, 1);
    assert !ReachWithin(f, 3, 2, 2) && !ReachWithin(f, 3, 1, 2);
    assert !ReachWithin(f, 3, 2, 3) && !ReachWithin(f, 3, 1, 3);
  }

  /** No block of either two-way example has a hazard. */
  lemma DiamondShape(f: Func)
    requires f.succ == [[1, 2], [3], [3], []] && |f.blocks| == 4
    ensures WellFormed(f)
    ensures Preds(f, 0) == [] && Preds(f, 1) == [0] && Preds(f, 2) == [0] && Preds(f, 3) == [1, 2]
    ensures !Hazard(f, 0) && !Hazard(f, 1) && !Hazard(f, 2) && !Hazard(f, 3)
  {
    DiamondPreds(f);
    DiamondArmsApart(f);
    assert !HazardFrom(f, f.succ[0], 1);
    assert !HazardFrom(f, f.succ[0], 0);
  }

  /** The local summaries of a diamond whose arms store `s1` and `s2`. */
  lemma DiamondInit(f: Func, s1: Op, s2: Op)
    requires f.succ == [[1, 2], [3], [3], []]
    requires IsStoreTo(s1, 0) && IsStoreTo(s2, 0)
    requires f.blocks == [[Alloca(0)], [s1], [s2], [Load(3, 0)]]
    ensures WellFormed(f)
    ensures Init(f, 0) == [Summary(None, false, None, None), Summary(Some(s1), false, None, None),
                           Summary(Some(s2), false, None, None), Summary(None, true, None, None)]
  {
    DiamondShape(f);
    var s0 := Init(f, 0);
    assert Scan([Alloca(0)], 0, None, false) == (None, false);
    assert Scan([s1], 0, None, false) == (Some(s1), false);
    assert Scan([s2], 0, None, false) == (Some(s2), false);
    assert Scan([Load(3, 0)], 0, None, false) == (None, true);
    var want := [Summary(None, false, None, None), Summary(Some(s1), false, None, None),
                 Summary(Some(s2), false, None, None), Summary(None, true, None, None)];
    forall k | 0 <= k < 4
      ensures s0[k] == want[k]
    {
      assert k == 0 || k == 1 || k == 2 || k == 3;
    }
  }

  /** The block updates of the first sweep over such a diamond. */
  lemma DiamondFirstSteps(f: Func, s1: Op, s2: Op, a: seq<Summary>)
    requires f.succ == [[1, 2], [3], [3], []]
    requires IsStoreTo(s1, 0) && IsStoreTo(s2, 0)
    requires f.blocks == [[Alloca(0)], [s1], [s2], [Load(3, 0)]]
    requires a == [Summary(None, false, None, None), Summary(Some(s1), false, None, Some(s1)),
                   Summary(Some(s2), false, None, Some(s2)),
                   Summary(None, true, if Identical(s1, s2) then Some(s1) else None, None)]
    ensures WellFormed(f)
    ensures Step(f, Init(f, 0), 0) == Init(f, 0)
    ensures Step(f, Init(f, 0), 1) == Init(f, 0)[1 := a[1]]
    ensures Step(f, Init(f, 0)[1 := a[1]], 2) == Init(f, 0)[1 := a[1]][2 := a[2]]
    ensures Step(f, Init(f, 0)[1 := a[1]][2 := a[2]], 3) == a
  {
    DiamondInit(f, s1, s2);
    DiamondPreds(f);
    var s0 := Init(f, 0);
    var t1 := s0[1 := a[1]];
    var t2 := t1[2 := a[2]];
    assert Merge(s0, [], None) == None;
    assert Merge(s0, [0], None) == None;
    assert Merge(t1, [0], None) == None;
    assert Merge(t2, [1, 2], None) == a[3].inStore;
  }

  /** The first sweep over such a diamond; it reports a change exactly when
      the two arm stores are identical. */
  lemma DiamondFirstSweep(f: Func, s1: Op, s2: Op, a: seq<Summary>)
    requires f.succ == [[1, 2], [3], [3], []]
    requires IsStoreTo(s1, 0) && IsStoreTo(s2, 0)
    requires f.blocks == [[Alloca(0)], [s1], [s2], [Load(3, 0)]]
    requires a == [Summary(None, false, None, None), Summary(Some(s1), false, None, Some(s1)),
                   Summary(Some(s2), false, None, Some(s2)),
                   Summary(None, true, if Identical(s1, s2) then Some(s1) else None, None)]
    ensures WellFormed(f) && Pass(f, Init(f, 0)) == (a, Identical(s1, s2))
  {
    DiamondFirstSteps(f, s1, s2, a);
    DiamondInit(f, s1, s2);
    var t0 := Init(f, 0);
    var t1 := t0[1 := a[1]];
    var t2 := t1[2 := a[2]];
    assert PassFrom(f, a, 4, Identical(s1, s2)) == (a, Identical(s1, s2));
    assert PassFrom(f, t2, 3, false) == (a, Identical(s1, s2));
    assert PassFrom(f, t1, 2, false) == (a, Identical(s1, s2));
    assert PassFrom(f, t0, 1, false) == (a, Identical(s1, s2));
  }

  /** The summaries of the diamond once the analysis stops. */
  function DiamondSummaries(): seq<Summary>
  {
    [Summary(None, false, None, None), Summary(Some(Store(1, 0, 7)), false, None, Some(Store(1, 0, 7))),
     Summary(Some(Store(2, 0, 7)), false, None, Some(Store(2, 0, 7))), Summary(None, true, Some(Store(1, 0, 7)), None)]
  }

  /** On the diamond's summaries no block's update changes anything. */
  lemma DiamondStepsFixed(f: Func, a: seq<Summary>)
    requires f.succ == [[1, 2], [3], [3], []] && |f.blocks| == 4
    requires a == DiamondSummaries()
    ensures WellFormed(f)
    ensures Step(f, a, 0) == a && Step(f, a, 1) == a && Step(f, a, 2) == a && Step(f, a, 3) == a
  {
    DiamondPreds(f);
    assert Merge(a, [], None) == None && Merge(a, [0], None) == None;
    assert Merge(a, [1, 2], a[3].inStore) == a[3].inStore;
  }

  /** On the diamond's summaries a sweep changes nothing. */
  lemma DiamondSecondSweep(f: Func, a: seq<Summary>)
    requires f.succ == [[1, 2], [3], [3], []] && |f.blocks| == 4
    requires a == DiamondSummaries()
    ensures WellFormed(f) && Pass(f, a) == (a, false)
  {
    DiamondStepsFixed(f, a);
    assert PassFrom(f, a, 4, false) == (a, false);
    assert PassFrom(f, a, 3, false) == (a, false);
    assert PassFrom(f, a, 2, false) == (a, false);
    assert PassFrom(f, a, 1, false) == (a, false);
  }

  /** The first sweep gives the final summaries and the second confirms them. */
  lemma DiamondAnalysis(f: Func)
    requires f == Diamond()
    ensures Analyze(f, 0, 10) == DiamondSummaries()
  {
    var a := DiamondSummaries();
    DiamondFirstSweep(f, Store(1, 0, 7), Store(2, 0, 7), a);
    DiamondSecondSweep(f, a);
    var fuel := 10;
    assert Iterate(f, Init(f, 0), true, fuel) == Iterate(f, a, true, fuel - 1);
    assert Iterate(f, a, true, fuel - 1) == Iterate(f, a, false, fuel - 2);
  }

  /** Both arm stores are recorded as partially dead. */
  lemma DiamondDeadHas(f: Func, a: seq<Summary>)
    requires f.succ == [[1, 2], [3], [3], []] && |f.blocks| == 4
    requires a == DiamondSummaries()
    ensures WellFormed(f) && Store(1, 0, 7) in DeadStores(f, a) && Store(2, 0, 7) in DeadStores(f, a)
  {
    DiamondPreds(f);
    assert 1 in Preds(f, 3) && 2 in Preds(f, 3);
    assert a[3].inStore.Some? && a[1].outStore == Some(Store(1, 0, 7)) && a[2].outStore == Some(Store(2, 0, 7));
  }

  /** Nothing but the arm stores is recorded as partially dead. */
  lemma DiamondDeadOnly(f: Func, a: seq<Summary>)
    requires f.succ == [[1, 2], [3], [3], []] && |f.blocks| == 4
    requires a == DiamondSummaries()
    ensures WellFormed(f) && DeadStores(f, a) <= {Store(1, 0, 7), Store(2, 0, 7)}
  {
    DiamondPreds(f);
    forall w | w in DeadStores(f, a)
      ensures w == Store(1, 0, 7) || w == Store(2, 0, 7)
    {
      var k, p :| 0 <= k < |a| && a[k].inStore.Some? && p in Preds(f, k) && a[p].outStore.Some? && w == a[p].outStore.value;
      assert k == 0 || k == 1 || k == 2 || k == 3;
      assert k == 3 && Preds(f, k) == [1, 2];
      assert p == 1 || p == 2;
    }
  }

  lemma DiamondDead(f: Func, a: seq<Summary>)
    requires f.succ == [[1, 2], [3], [3], []] && |f.blocks| == 4
    requires a == DiamondSummaries()
    ensures WellFormed(f) && DeadStores(f, a) == {Store(1, 0, 7), Store(2, 0, 7)}
  {
    DiamondDeadHas(f, a);
    DiamondDeadOnly(f, a);
  }

  /** The ids of the diamond's instructions stop at 3, so copies start at 4. */
  lemma DiamondFresh(bl: seq<Block>)
    requires bl == [[Alloca(0)], [Store(1, 0, 7)], [Store(2, 0, 7)], [Load(3, 0)]]
    ensures FreshId(Flatten(bl)) == 4
  {
    var ops := [Alloca(0), Store(1, 0, 7), Store(2, 0, 7), Load(3, 0)];
    assert Flatten(bl[3..]) == [Load(3, 0)];
    assert Flatten(bl[2..]) == ops[2..];
    assert Flatten(bl[1..]) == ops[1..];
    assert Flatten(bl) == ops;
    assert FreshId(ops[3..]) == 4;
    assert FreshId(ops[2..]) == 4;
    assert FreshId(ops[1..]) == 4;
  }

  /** The copy each block of the diamond receives, ahead of its instructions. */
  lemma DiamondInserted(f: Func, a: seq<Summary>)
    requires f.succ == [[1, 2], [3], [3], []]
    requires f.blocks == [[Alloca(0)], [Store(1, 0, 7)], [Store(2, 0, 7)], [Load(3, 0)]]
    requires a == DiamondSummaries()
    ensures WellFormed(f)
    ensures Inserted(f, a, 0) + f.blocks[0] == [] + [Alloca(0)]
    ensures Inserted(f, a, 1) + f.blocks[1] == [] + [Store(1, 0, 7)]
    ensures Inserted(f, a, 2) + f.blocks[2] == [] + [Store(2, 0, 7)]
    ensures Inserted(f, a, 3) + f.blocks[3] == [Store(7, 0, 7)] + [Load(3, 0)]
  {
    DiamondFresh(f.blocks);
  }

  /** Sinking on the diamond's final summaries. */
  lemma DiamondSinkStep(f: Func, a: seq<Summary>)
    requires f.succ == [[1, 2], [3], [3], []]
    requires f.blocks == [[Alloca(0)], [Store(1, 0, 7)], [Store(2, 0, 7)], [Load(3, 0)]]
    requires a == DiamondSummaries()
    ensures WellFormed(f) && Sink(f, a) == (Func([[Alloca(0)], [], [], [Store(7, 0, 7), Load(3, 0)]], f.succ), true)
  {
    var d := {Store(1, 0, 7), Store(2, 0, 7)};
    DiamondDead(f, a);
    DiamondInserted(f, a);
    DiamondErase(d);
    var want := [[Alloca(0)], [], [], [Store(7, 0, 7), Load(3, 0)]];
    assert want[0] == Without(Inserted(f, a, 0) + f.blocks[0], d);
    assert want[1] == Without(Inserted(f, a, 1) + f.blocks[1], d);
    assert want[2] == Without(Inserted(f, a, 2) + f.blocks[2], d);
    assert want[3] == Without(Inserted(f, a, 3) + f.blocks[3], d);
    SinkIs(f, a, d, want);
  }

  /** On four blocks, sinking is determined by the copies and the dead-store set. */
  lemma SinkIs(f: Func, s: seq<Summary>, d: set<Op>, want: seq<Block>)
    requires WellFormed(f) && |s| == |f.blocks| && DeadStores(f, s) == d
    requires |want| == |f.blocks| == 4
    requires want[0] == Without(Inserted(f, s, 0) + f.blocks[0], d)
    requires want[1] == Without(Inserted(f, s, 1) + f.blocks[1], d)
    requires want[2] == Without(Inserted(f, s, 2) + f.blocks[2], d)
    requires want[3] == Without(Inserted(f, s, 3) + f.blocks[3], d)
    ensures Sink(f, s) == (Func(want, f.succ), d != {})
  {
    var r := Sink(f, s);
    assert r.0.blocks[0] == want[0] && r.0.blocks[1] == want[1];
    assert r.0.blocks[2] == want[2] && r.0.blocks[3] == want[3];
    forall i | 0 <= i < 4
      ensures r.0.blocks[i] == want[i]
    {
      assert i == 0 || i == 1 || i == 2 || i == 3;
    }
    assert r.0.blocks == want;
  }

  lemma DiamondErase(d: set<Op>)
    requires d == {Store(1, 0, 7), Store(2, 0, 7)}
    ensures Without([] + [Alloca(0)], d) == [Alloca(0)]
    ensures Without([] + [Store(1, 0, 7)], d) == []
    ensures Without([] + [Store(2, 0, 7)], d) == []
    ensures Without([Store(7, 0, 7)] + [Load(3, 0)], d) == [Store(7, 0, 7), Load(3, 0)]
  {
    assert [] + [Alloca(0)] == [Alloca(0)];
    assert [] + [Store(1, 0, 7)] == [Store(1, 0, 7)];
    assert [] + [Store(2, 0, 7)] == [Store(2, 0, 7)];
    assert [Store(7, 0, 7)] + [Load(3, 0)] == [Store(7, 0, 7), Load(3, 0)];
    assert Without([Load(3, 0)], d) == [Load(3, 0)];
  }

  /** The two stores are erased and one copy lands at the front of the join block. */
  lemma DiamondSinks(f: Func)
    requires f == Diamond()
    ensures Sink(f, Analyze(f, 0, 10)) ==
              (Func([[Alloca(0)], [], [], [Store(7, 0, 7), Load(3, 0)]], f.succ), true)
  {
    DiamondAnalysis(f);
    DiamondSinkStep(f, DiamondSummaries());
  }

  /** Entry branches to blocks 1 and 2, which store different values. */
  function SplitValues(): (f: Func)
    ensures WellFormed(f)
  {
    Func([[Alloca(0)], [Store(1, 0, 7)], [Store(2, 0, 8)], [Load(3, 0)]], [[1, 2], [3], [3], []])
  }

  /** Different stored values: the join block's IN stays null after the
      first sweep, which therefore reports no change. */
  lemma SplitAnalysis(f: Func, a: seq<Summary>)
    requires f == SplitValues()
    requires a == [Summary(None, false, None, None), Summary(Some(Store(1, 0, 7)), false, None, Some(Store(1, 0, 7))),
                   Summary(Some(Store(2, 0, 8)), false, None, Some(Store(2, 0, 8))), Summary(None, true, None, None)]
    ensures Analyze(f, 0, 10) == a
  {
    DiamondFirstSweep(f, Store(1, 0, 7), Store(2, 0, 8), a);
    assert Iterate(f, Init(f, 0), true, 10) == Iterate(f, a, false, 9);
  }

  /** Different stored values: nothing is sunk and nothing changes. */
  lemma SplitValuesStay(f: Func)
    requires f == SplitValues()
    ensures Sink(f, Analyze(f, 0, 10)) == (f, false)
  {
    var a := [Summary(None, false, None, None), Summary(Some(Store(1, 0, 7)), false, None, Some(Store(1, 0, 7))),
              Summary(Some(Store(2, 0, 8)), false, None, Some(Store(2, 0, 8))), Summary(None, true, None, None)];
    SplitAnalysis(f, a);
    forall b | 0 <= b < 4
      ensures a[b].inStore.None?
    {
      assert b == 0 || b == 1 || b == 2 || b == 3;
    }
    NothingToSink(f, a);
  }

  /** Three stores then a load: only the last store survives. */
  lemma RunOfStores()
    ensures RmDupBlock([Store(1, 0, 1), Store(2, 0, 2), Store(3, 0, 3), Load(4, 0)], 0) ==
              [Store(3, 0, 3), Load(4, 0)]
  {
    var ops := [Store(1, 0, 1), Store(2, 0, 2), Store(3, 0, 3), Load(4, 0)];
    assert NextIsStore(ops[3..], 0, false) == false;
    assert NextIsStore(ops[2..], 0, false);
    assert NextIsStore(ops[1..], 0, false);
    assert Live(ops[3..], 0, false) == [Load(4, 0)];
    assert Live(ops[2..], 0, false) == [Store(3, 0, 3), Load(4, 0)];
  }

  /** Entry branches to block 1, which stores 7 to allocation 0, and to
      block 3; block 1 goes on to block 2 or to block 3. Blocks 2 and 3 both
      load the variable. */
  function SideExit(): (f: Func)
    ensures WellFormed(f)
  {
    Func([[Alloca(0)], [Store(1, 0, 7)], [Load(2, 0)], [Load(3, 0)]], [[1, 3], [2, 3], [], []])
  }

  /** The predecessor lists of `SideExit`. */
  lemma SideExitPreds(f: Func)
    requires f.succ == [[1, 3], [2, 3], [], []] && |f.blocks| == 4
    ensures Preds(f, 0) == [] && Preds(f, 1) == [0] && Preds(f, 2) == [1] && Preds(f, 3) == [0, 1]
  {
    assert PredsFrom(f, 0, 4) == [] && PredsFrom(f, 1, 4) == [] && PredsFrom(f, 2, 4) == [] && PredsFrom(f, 3, 4) == [];
    assert PredsFrom(f, 0, 3) == [] && PredsFrom(f, 1, 3) == [] && PredsFrom(f, 2, 3) == [] && PredsFrom(f, 3, 3) == [];
    assert PredsFrom(f, 0, 2) == [] && PredsFrom(f, 1, 2) == [] && PredsFrom(f, 2, 2) == [] && PredsFrom(f, 3, 2) == [];
    assert PredsFrom(f, 0, 1) == [] && PredsFrom(f, 1, 1) == [] && PredsFrom(f, 2, 1) == [1] && PredsFrom(f, 3, 1) == [1];
    assert PredsFrom(f, 0, 0) == [] && PredsFrom(f, 1, 0) == [0] && PredsFrom(f, 2, 0) == [1] && PredsFrom(f, 3, 0) == [0, 1];
  }

  /** Block 1 reaches block 3, so the entry has a hazard; block 1's
      successors 2 and 3 are independent, so it has none. */
  lemma SideExitHazards(f: Func)
    requires f.succ == [[1, 3], [2, 3], [], []] && |f.blocks| == 4
    ensures WellFormed(f) && Hazard(f, 0) && !Hazard(f, 1) && !Hazard(f, 2) && !Hazard(f, 3)
  {
    assert ReachWithin(f, 3, 3, 3);
    assert f.succ[1][1] == 3;
    assert ReachWithin(f, 1, 3, 4);
    assert AdjacentHazard(f, f.succ[0], 0);
    assert !ReachWithin(f, 2, 3, 4) && !ReachWithin(f, 3, 2, 4);
    assert !HazardFrom(f, f.succ[1], 1);
  }

  /** The summaries of `SideExit` after its one sweep: only block 2's IN is set. */
  function SideExitSummaries(): seq<Summary>
  {
    [Summary(None, true, None, None), Summary(Some(Store(1, 0, 7)), false, None, Some(Store(1, 0, 7))),
     Summary(None, true, Some(Store(1, 0, 7)), None), Summary(None, true, None, None)]
  }

  /** The summaries `SideExit` starts from: a killed entry, the store in
      block 1 and two killing loads. */
  function SideExitStart(): seq<Summary>
  {
    SideExitSummaries()[1 := Summary(Some(Store(1, 0, 7)), false, None, None)][2 := Summary(None, true, None, None)]
  }

  lemma SideExitInit(f: Func)
    requires f == SideExit()
    ensures Init(f, 0) == SideExitStart()
  {
    SideExitHazards(f);
    var s0 := Init(f, 0);
    assert Scan([Store(1, 0, 7)], 0, None, false) == (Some(Store(1, 0, 7)), false);
    assert Scan([Load(2, 0)], 0, None, false) == (None, true);
    assert Scan([Load(3, 0)], 0, None, false) == (None, true);
    var want := SideExitStart();
    forall k | 0 <= k < 4
      ensures s0[k] == want[k]
    {
      assert k == 0 || k == 1 || k == 2 || k == 3;
    }
  }

  /** The four block updates of the sweep over `SideExit`. */
  lemma SideExitSteps(f: Func, s0: seq<Summary>, s1: seq<Summary>, a: seq<Summary>)
    requires f.succ == [[1, 3], [2, 3], [], []] && |f.blocks| == 4
    requires s0 == SideExitStart() && a == SideExitSummaries() && s1 == s0[1 := a[1]]
    ensures WellFormed(f)
    ensures Step(f, s0, 0) == s0 && Step(f, s0, 1) == s1 && Step(f, s1, 2) == a && Step(f, a, 3) == a
  {
    SideExitPreds(f);
    assert Merge(s0, [], None) == None && Merge(s0, [0], None) == None;
    assert Merge(s1, [1], None) == Some(Store(1, 0, 7));
    assert Merge(a, [0, 1], None) == None;
    assert s1[2 := a[2]] == a;
  }

  /** The one sweep over `SideExit`: block 2 takes block 1's store as its IN,
      block 3 sees the entry's null OUT, and the last block's IN does not
      change, so the loop stops. */
  lemma SideExitAnalysis(f: Func)
    requires f == SideExit()
    ensures Analyze(f, 0, 10) == SideExitSummaries()
  {
    SideExitInit(f);
    var a := SideExitSummaries();
    var s0 := SideExitStart();
    var s1 := s0[1 := a[1]];
    SideExitSteps(f, s0, s1, a);
    assert PassFrom(f, a, 4, false) == (a, false);
    assert PassFrom(f, a, 3, true) == (a, false);
    assert PassFrom(f, s1, 2, false) == (a, false);
    assert PassFrom(f, s0, 1, false) == (a, false);
    assert Iterate(f, s0, true, 10) == Iterate(f, a, false, 9);
  }

  /** Block 1's store is the only partially dead one. */
  lemma SideExitDead(f: Func, a: seq<Summary>)
    requires f.succ == [[1, 3], [2, 3], [], []] && |f.blocks| == 4
    requires a == SideExitSummaries()
    ensures WellFormed(f) && DeadStores(f, a) == {Store(1, 0, 7)}
  {
    SideExitPreds(f);
    assert 1 in Preds(f, 2) && a[2].inStore.Some? && a[1].outStore == Some(Store(1, 0, 7));
    forall w | w in DeadStores(f, a)
      ensures w == Store(1, 0, 7)
    {
      var k, p :| 0 <= k < |a| && a[k].inStore.Some? && p in Preds(f, k) && a[p].outStore.Some? && w == a[p].outStore.value;
      assert k == 0 || k == 1 || k == 2 || k == 3;
      assert k == 2 && p == 1;
    }
  }

  /** The ids of `SideExit`'s instructions stop at 3, so copies start at 4. */
  lemma SideExitFresh(bl: seq<Block>)
    requires bl == [[Alloca(0)], [Store(1, 0, 7)], [Load(2, 0)], [Load(3, 0)]]
    ensures FreshId(Flatten(bl)) == 4
  {
    var ops := [Alloca(0), Store(1, 0, 7), Load(2, 0), Load(3, 0)];
    assert Flatten(bl[3..]) == [Load(3, 0)];
    assert Flatten(bl[2..]) == ops[2..];
    assert Flatten(bl[1..]) == ops[1..];
    assert Flatten(bl) == ops;
    assert FreshId(ops[3..]) == 4;
    assert FreshId(ops[2..]) == 4;
    assert FreshId(ops[1..]) == 4;
  }

  /** The copy each block of `SideExit` receives, ahead of its instructions. */
  lemma SideExitInserted(f: Func, a: seq<Summary>)
    requires f.succ == [[1, 3], [2, 3], [], []]
    requires f.blocks == [[Alloca(0)], [Store(1, 0, 7)], [Load(2, 0)], [Load(3, 0)]]
    requires a == SideExitSummaries()
    ensures WellFormed(f)
    ensures Inserted(f, a, 0) + f.blocks[0] == [] + [Alloca(0)]
    ensures Inserted(f, a, 1) + f.blocks[1] == [] + [Store(1, 0, 7)]
    ensures Inserted(f, a, 2) + f.blocks[2] == [Store(6, 0, 7)] + [Load(2, 0)]
    ensures Inserted(f, a, 3) + f.blocks[3] == [] + [Load(3, 0)]
  {
    SideExitFresh(f.blocks);
  }

  lemma SideExitErase(d: set<Op>)
    requires d == {Store(1, 0, 7)}
    ensures Without([] + [Alloca(0)], d) == [Alloca(0)]
    ensures Without([] + [Store(1, 0, 7)], d) == []
    ensures Without([Store(6, 0, 7)] + [Load(2, 0)], d) == [Store(6, 0, 7), Load(2, 0)]
    ensures Without([] + [Load(3, 0)], d) == [Load(3, 0)]
  {
    assert [] + [Alloca(0)] == [Alloca(0)];
    assert [] + [Store(1, 0, 7)] == [Store(1, 0, 7)];
    assert [] + [Load(3, 0)] == [Load(3, 0)];
    assert [Store(6, 0, 7)] + [Load(2, 0)] == [Store(6, 0, 7), Load(2, 0)];
    assert Without([Load(2, 0)], d) == [Load(2, 0)];
  }

  /** Sinking on `SideExit`'s final summaries. */
  lemma SideExitSinkStep(f: Func, a: seq<Summary>)
    requires f.succ == [[1, 3], [2, 3], [], []]
    requires f.blocks == [[Alloca(0)], [Store(1, 0, 7)], [Load(2, 0)], [Load(3, 0)]]
    requires a == SideExitSummaries()
    ensures WellFormed(f)
    ensures Sink(f, a) == (Func([[Alloca(0)], [], [Store(6, 0, 7), Load(2, 0)], [Load(3, 0)]], f.succ), true)
  {
    var d := {Store(1, 0, 7)};
    SideExitDead(f, a);
    SideExitInserted(f, a);
    SideExitErase(d);
    var want := [[Alloca(0)], [], [Store(6, 0, 7), Load(2, 0)], [Load(3, 0)]];
    assert want[0] == Without(Inserted(f, a, 0) + f.blocks[0], d);
    assert want[1] == Without(Inserted(f, a, 1) + f.blocks[1], d);
    assert want[2] == Without(Inserted(f, a, 2) + f.blocks[2], d);
    assert want[3] == Without(Inserted(f, a, 3) + f.blocks[3], d);
    SinkIs(f, a, d, want);
  }

  /** The pass as written loses a store: `findPartialDeadStores` erases
      block 1's store because block 2's IN is set, and puts the copy only in
      block 2. Block 3, the other successor of block 1, loads the variable
      but gets no copy, so on the path 0, 1, 3 the stored value is gone. */
  lemma LostOnSideExit(f: Func)
    requires f == SideExit()
    ensures 3 in f.succ[1] && IsLoadOf(f.blocks[3][0], 0) && IsStoreTo(f.blocks[1][0], 0)
    ensures Sink(f, Analyze(f, 0, 10)) ==
              (Func([[Alloca(0)], [], [Store(6, 0, 7), Load(2, 0)], [Load(3, 0)]], f.succ), true)
  {
    SideExitAnalysis(f);
    SideExitSinkStep(f, SideExitSummaries());
  }
}
