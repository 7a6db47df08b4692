/** Local removal of overwritten stores (`rmDup`): within one block, a store
    to the variable that is followed by another store to it, with no load
    of it in between, is erased. */
module Cleanup {
  import opened Ir

  /** The backward scan of `rmDup` over `ops`. `pending` is the flag as the
      instructions after `ops` left it: a store to `v` was seen and no load
      of `v` since. Returns the instructions the scan does not erase. */
  function ScanBack(ops: seq<Op>, v: nat, pending: bool): (r: seq<Op>)
    ensures |r| <= |ops|
    ensures forall o :: o in r ==> o in ops
    ensures forall o :: o in ops && !IsStoreTo(o, v) ==> o in r
    ensures !pending && |ops| > 0 ==> |r| > 0 && r[|r| - 1] == ops[|ops| - 1]
    decreases |ops|
  {
    if |ops| == 0 then []
    else
      var last := ops[|ops| - 1];
      var init := ops[..|ops| - 1];
      if IsStoreTo(last, v) then
        if pending then ScanBack(init, v, true) else ScanBack(init, v, true) + [last]
      else if IsLoadOf(last, v) then ScanBack(init, v, false) + [last]
      else ScanBack(init, v, pending)  + [last]
  }

  /** Reading `ops` forward, the first event on `v` is a store; `after` says
      the same of whatever follows `ops` when `ops` has no event. */
  predicate NextIsStore(ops: seq<Op>, v: nat, after: bool)
  {
    if |ops| == 0 then after
    else if IsStoreTo(ops[0], v) then true
    else if IsLoadOf(ops[0], v) then false
    else NextIsStore(ops[1..], v, after)
  }

  /** The reference: keep every instruction except a store to `v` whose next
      event on `v` is another store. */
  function Live(ops: seq<Op>, v: nat, after: bool): seq<Op>
  {
    if |ops| == 0 then []
    else (if IsStoreTo(ops[0], v) && NextIsStore(ops[1..], v, after) then [] else [ops[0]]) + Live(ops[1..], v, after)
  }

  /** No store to `v` in `ops` is followed, as next event, by another store. */
  predicate NoDeadStore(ops: seq<Op>, v: nat, after: bool)
  {
    forall i :: 0 <= i < |ops| && IsStoreTo(ops[i], v) ==> !NextIsStore(ops[i + 1..], v, after)
  }

  /** rmDup on one block. */
  function RmDupBlock(ops: seq<Op>, v: nat): (r: seq<Op>)
    ensures r == Live(ops, v, false)
    ensures DropStoresTo(r, v) == DropStoresTo(ops, v)
    ensures forall i, j :: 0 <= i < j < |r| && IsStoreTo(r[i], v) && IsStoreTo(r[j], v) ==>
              exists k :: i < k < j && IsLoadOf(r[k], v)
  {
    ScanBackIsLive(ops, v, false);
    LiveKeepsOthers(ops, v, false);
    LiveHasNoDeadStore(ops, v, false);
    LoadBetweenStores(Live(ops, v, false), v);
    ScanBack(ops, v, false)
  }

  /** Without dead stores, any two stores to `v` have a load of `v` between them. */
  lemma LoadBetweenStores(r: seq<Op>, v: nat)
    requires NoDeadStore(r, v, false)
    ensures forall i, j :: 0 <= i < j < |r| && IsStoreTo(r[i], v) && IsStoreTo(r[j], v) ==>
              exists k :: i < k < j && IsLoadOf(r[k], v)
  {
    forall i, j | 0 <= i < j < |r| && IsStoreTo(r[i], v) && IsStoreTo(r[j], v)
      ensures exists k :: i < k < j && IsLoadOf(r[k], v)
    {
      if forall k :: i < k < j ==> !IsLoadOf(r[k], v) {
        StoreAhead(r[i + 1..], v, false, j - i - 1);
        assert false;
      }
    }
  }

  /** rmDup over every block of the function. */
  function RmDup(f: Func, v: nat): (r: Func)
    ensures r.succ == f.succ && |r.blocks| == |f.blocks|
    ensures forall b :: 0 <= b < |f.blocks| ==> r.blocks[b] == Live(f.blocks[b], v, false)
    ensures forall b :: 0 <= b < |f.blocks| ==> DropStoresTo(r.blocks[b], v) == DropStoresTo(f.blocks[b], v)
    ensures forall b, i, j ::
              0 <= b < |r.blocks| && 0 <= i < j < |r.blocks[b]| && IsStoreTo(r.blocks[b][i], v) && IsStoreTo(r.blocks[b][j], v)
              ==> exists k :: i < k < j && IsLoadOf(r.blocks[b][k], v)
    ensures forall b :: 0 <= b < |f.blocks| ==> r.blocks[b] == RmDupBlock(f.blocks[b], v)
  {
    var blocks := seq(|f.blocks|, b requires 0 <= b < |f.blocks| => RmDupBlock(f.blocks[b], v));
    assert forall b :: 0 <= b < |blocks| ==> blocks[b] == RmDupBlock(f.blocks[b], v);
    Func(blocks, f.succ)
  }

  /** Running rmDup a second time erases nothing more. */
  lemma RmDupIdempotent(ops: seq<Op>, v: nat)
    ensures RmDupBlock(RmDupBlock(ops, v), v) == RmDupBlock(ops, v)
  {
    LiveHasNoDeadStore(ops, v, false);
    LiveOfClean(Live(ops, v, false), v, false);
  }

  /** Running rmDup over the whole function a second time changes nothing. */
  lemma RmDupTwice(f: Func, v: nat)
    ensures RmDup(RmDup(f, v), v) == RmDup(f, v)
  {
    var once := RmDup(f, v);
    forall b | 0 <= b < |f.blocks|
      ensures RmDup(once, v).blocks[b] == once.blocks[b]
    {
      RmDupIdempotent(f.blocks[b], v);
    }
  }

  lemma {:induction false} NextIsStoreAppend(a: seq<Op>, x: Op, v: nat, after: bool)
    ensures NextIsStore(a + [x], v, after) == NextIsStore(a, v, NextIsStore([x], v, after))
  {
    if |a| > 0 {
      TailAppend(a, [x]);
      NextIsStoreAppend(a[1..], x, v, after);
    } else {
      assert a + [x] == [x];
    }
  }

  lemma {:induction false} LiveAppend(a: seq<Op>, x: Op, v: nat, after: bool)
    ensures Live(a + [x], v, after) ==
              Live(a, v, NextIsStore([x], v, after)) + (if IsStoreTo(x, v) && after then [] else [x])
  {
    if |a| > 0 {
      TailAppend(a, [x]);
      LiveAppend(a[1..], x, v, after);
      NextIsStoreAppend(a[1..], x, v, after);
    } else {
      assert a + [x] == [x];
      assert [x][1..] == [];
    }
  }

  /** The backward scan computes the reference. */
  lemma {:induction false} ScanBackIsLive(ops: seq<Op>, v: nat, pending: bool)
    ensures ScanBack(ops, v, pending) == Live(ops, v, pending)
    decreases |ops|
  {
    if |ops| > 0 {
      var last := ops[|ops| - 1];
      var init := ops[..|ops| - 1];
      assert ops == init + [last];
      LiveAppend(init, last, v, pending);
      ScanBackIsLive(init, v, NextIsStore([last], v, pending));
      assert [last][1..] == [];
    }
  }

  /** Erasing a store whose next event is a store leaves every earlier
      instruction's next event unchanged. */
  lemma {:induction false} LiveKeepsNext(ops: seq<Op>, v: nat, after: bool)
    ensures NextIsStore(Live(ops, v, after), v, after) == NextIsStore(ops, v, after)
  {
    if |ops| > 0 {
      LiveKeepsNext(ops[1..], v, after);
      var head := if IsStoreTo(ops[0], v) && NextIsStore(ops[1..], v, after) then [] else [ops[0]];
      assert Live(ops, v, after) == head + Live(ops[1..], v, after);
      var rest := Live(ops[1..], v, after);
      if head != [] {
        var r := head + rest;
        assert r[0] == ops[0] && r[1..] == rest;
        assert NextIsStore(r, v, after) ==
          if IsStoreTo(ops[0], v) then true
          else if IsLoadOf(ops[0], v) then false
          else NextIsStore(rest, v, after);
      } else {
        assert IsStoreTo(ops[0], v) && NextIsStore(ops[1..], v, after);
        assert NextIsStore(ops, v, after);
        assert NextIsStore(rest, v, after);
        assert head + rest == rest;
      }
    }
  }

  lemma {:induction false} LiveHasNoDeadStore(ops: seq<Op>, v: nat, after: bool)
    ensures NoDeadStore(Live(ops, v, after), v, after)
  {
    if |ops| > 0 {
      LiveHasNoDeadStore(ops[1..], v, after);
      LiveKeepsNext(ops[1..], v, after);
      var rest := Live(ops[1..], v, after);
      var head := if IsStoreTo(ops[0], v) && NextIsStore(ops[1..], v, after) then [] else [ops[0]];
      var r := head + rest;
      assert Live(ops, v, after) == r;
      forall i | 0 <= i < |r| && IsStoreTo(r[i], v)
        ensures !NextIsStore(r[i + 1..], v, after)
      {
        if i >= |head| {
          assert r[i + 1..] == rest[i - |head| + 1..];
          assert rest[i - |head|] == r[i];
        } else {
          assert r[i + 1..] == rest;
        }
      }
    }
  }

  /** On a block with no dead store the reference erases nothing. */
  lemma {:induction false} LiveOfClean(ops: seq<Op>, v: nat, after: bool)
    requires NoDeadStore(ops, v, after)
    ensures Live(ops, v, after) == ops
  {
    if |ops| > 0 {
      assert forall i :: 0 <= i < |ops| - 1 ==> ops[1..][i] == ops[i + 1] && ops[1..][i + 1..] == ops[i + 2..];
      LiveOfClean(ops[1..], v, after);
      assert ops == [ops[0]] + ops[1..];
    }
  }

  lemma {:induction false} LiveKeepsOthers(ops: seq<Op>, v: nat, after: bool)
    ensures DropStoresTo(Live(ops, v, after), v) == DropStoresTo(ops, v)
  {
    if |ops| > 0 {
      LiveKeepsOthers(ops[1..], v, after);
      var head := if IsStoreTo(ops[0], v) && NextIsStore(ops[1..], v, after) then [] else [ops[0]];
      DropStoresAppend(head, Live(ops[1..], v, after), v);
    }
  }

  /** A store at position `j` with no load before it is the next event. */
  lemma {:induction false} StoreAhead(ops: seq<Op>, v: nat, after: bool, j: nat)
    requires j < |ops| && IsStoreTo(ops[j], v)
    requires forall k :: 0 <= k < j ==> !IsLoadOf(ops[k], v)
    ensures NextIsStore(ops, v, after)
  {
    if j > 0 && !IsStoreTo(ops[0], v) {
      StoreAhead(ops[1..], v, after, j - 1);
    }
  }
}
