/** The program representation the pass works on: a function as a list of
    basic blocks, each an ordered list of instructions, plus the successor
    lists of the control-flow graph. Predecessors are derived from the
    successor lists. */
module Ir {

  /** `None` plays the role of a null instruction pointer. */
  datatype Option<+T> = None | Some(value: T)

  /** One instruction. `id` is the instruction's identity (its address in the
      host compiler); no two instructions of a function share one.
      `ptr` is the `id` of the allocation site a load or store accesses and
      `val` names the operand a store writes. */
  datatype Op =
    | Alloca(id: nat)
    | Store(id: nat, ptr: nat, val: nat)
    | Load(id: nat, ptr: nat)
    | Other(id: nat)

  type Block = seq<Op>

  /** `blocks` in layout order; `succ[b]` lists the successors of block `b`
      in the order its terminator names them. */
  datatype Func = Func(blocks: seq<Block>, succ: seq<seq<nat>>)

  /** Every block has a successor list and every edge targets a block. */
  predicate WellFormed(f: Func)
  {
    && |f.succ| == |f.blocks|
    && forall b, i :: 0 <= b < |f.succ| && 0 <= i < |f.succ[b]| ==> f.succ[b][i] < |f.blocks|
  }

  predicate IsStoreTo(o: Op, v: nat)
  {
    o.Store? && o.ptr == v
  }

  predicate IsLoadOf(o: Op, v: nat)
  {
    o.Load? && o.ptr == v
  }

  /** Structural identity: same opcode and operands, identity ignored. */
  predicate Identical(a: Op, b: Op)
  {
    a.(id := 0) == b.(id := 0)
  }

  /** Predecessors of block `b`, in ascending block order, each once. */
  function Preds(f: Func, b: nat): (r: seq<nat>)
    requires |f.succ| == |f.blocks|
    ensures forall p: nat :: p in r <==> p < |f.blocks| && b in f.succ[p]
    ensures forall i :: 0 <= i < |r| ==> r[i] < |f.blocks|
    ensures forall i, j :: 0 <= i < j < |r| ==> r[i] < r[j]
  {
    PredsFrom(f, b, 0)
  }

  function PredsFrom(f: Func, b: nat, p: nat): (r: seq<nat>)
    requires |f.succ| == |f.blocks|
    ensures forall q: nat :: q in r <==> p <= q < |f.blocks| && b in f.succ[q]
    ensures forall i :: 0 <= i < |r| ==> p <= r[i] < |f.blocks|
    ensures forall i, j :: 0 <= i < j < |r| ==> r[i] < r[j]
    decreases |f.blocks| - p
  {
    if p >= |f.blocks| then []
    else
      var rest := PredsFrom(f, b, p + 1);
      if b in f.succ[p] then [p] + rest else rest
  }

  /** The function's instruction stream, block after block. */
  function Flatten(bs: seq<Block>): (r: seq<Op>)
    ensures forall o :: o in r <==> exists b :: 0 <= b < |bs| && o in bs[b]
  {
    if |bs| == 0 then [] else bs[0] + Flatten(bs[1..])
  }

  /** The instructions of `ops` that are not in `d`, in their original order. */
  function Without(ops: seq<Op>, d: set<Op>): (r: seq<Op>)
    ensures forall o :: o in r <==> o in ops && o !in d
    ensures |r| <= |ops|
  {
    if |ops| == 0 then []
    else (if ops[0] in d then [] else [ops[0]]) + Without(ops[1..], d)
  }

  /** The instructions of `ops` that satisfy `keep`, in their original order. */
  function Keep(ops: seq<Op>, keep: Op -> bool): (r: seq<Op>)
    ensures forall o :: o in r <==> o in ops && keep(o)
  {
    if |ops| == 0 then []
    else (if keep(ops[0]) then [ops[0]] else []) + Keep(ops[1..], keep)
  }

  lemma Assoc(a: seq<Op>, b: seq<Op>, c: seq<Op>)
    ensures (a + b) + c == a + (b + c)
  {
  }

  lemma TailAppend(a: seq<Op>, b: seq<Op>)
    requires |a| > 0
    ensures (a + b)[0] == a[0] && (a + b)[1..] == a[1..] + b
  {
  }

  lemma {:induction false} KeepAppend(a: seq<Op>, b: seq<Op>, keep: Op -> bool)
    ensures Keep(a + b, keep) == Keep(a, keep) + Keep(b, keep)
  {
    if |a| > 0 {
      KeepAppend(a[1..], b, keep);
      TailAppend(a, b);
      var h := if keep(a[0]) then [a[0]] else [];
      assert Keep(a + b, keep) == h + Keep((a + b)[1..], keep);
      Assoc(h, Keep(a[1..], keep), Keep(b, keep));
    } else {
      assert a + b == b;
    }
  }

  lemma WithoutNothing(ops: seq<Op>)
    ensures Without(ops, {}) == ops
  {
    if |ops| > 0 {
      WithoutNothing(ops[1..]);
      assert ops == [ops[0]] + ops[1..];
    }
  }

  lemma {:induction false} WithoutAppend(a: seq<Op>, b: seq<Op>, d: set<Op>)
    ensures Without(a + b, d) == Without(a, d) + Without(b, d)
  {
    if |a| > 0 {
      WithoutAppend(a[1..], b, d);
      TailAppend(a, b);
      var h := if a[0] in d then [] else [a[0]];
      assert Without(a + b, d) == h + Without((a + b)[1..], d);
      Assoc(h, Without(a[1..], d), Without(b, d));
    } else {
      assert a + b == b;
    }
  }

  /** `ops` without its stores to allocation `v`: what the pass must leave alone. */
  function DropStoresTo(ops: seq<Op>, v: nat): (r: seq<Op>)
    ensures forall o :: o in r <==> o in ops && !IsStoreTo(o, v)
  {
    if |ops| == 0 then []
    else (if IsStoreTo(ops[0], v) then [] else [ops[0]]) + DropStoresTo(ops[1..], v)
  }

  /** `ops` without any store. */
  function NonStores(ops: seq<Op>): (r: seq<Op>)
    ensures forall o :: o in r <==> o in ops && !o.Store?
  {
    if |ops| == 0 then []
    else (if ops[0].Store? then [] else [ops[0]]) + NonStores(ops[1..])
  }

  lemma {:induction false} DropStoresAppend(a: seq<Op>, b: seq<Op>, v: nat)
    ensures DropStoresTo(a + b, v) == DropStoresTo(a, v) + DropStoresTo(b, v)
  {
    if |a| > 0 {
      DropStoresAppend(a[1..], b, v);
      TailAppend(a, b);
      var h := if IsStoreTo(a[0], v) then [] else [a[0]];
      assert DropStoresTo(a + b, v) == h + DropStoresTo((a + b)[1..], v);
      Assoc(h, DropStoresTo(a[1..], v), DropStoresTo(b, v));
    } else {
      assert a + b == b;
    }
  }

  /** Erasing stores to `v` leaves everything else in place. */
  lemma DropStoresWithout(ops: seq<Op>, d: set<Op>, v: nat)
    requires forall w :: w in d ==> IsStoreTo(w, v)
    ensures DropStoresTo(Without(ops, d), v) == DropStoresTo(ops, v)
  {
    if |ops| > 0 {
      DropStoresWithout(ops[1..], d, v);
      var head := if ops[0] in d then [] else [ops[0]];
      assert Without(ops, d) == head + Without(ops[1..], d);
      DropStoresAppend(head, Without(ops[1..], d), v);
    }
  }

  lemma NonStoresOfDrop(ops: seq<Op>, v: nat)
    ensures NonStores(DropStoresTo(ops, v)) == NonStores(ops)
  {
    if |ops| > 0 {
      NonStoresOfDrop(ops[1..], v);
      var head := if IsStoreTo(ops[0], v) then [] else [ops[0]];
      assert DropStoresTo(ops, v) == head + DropStoresTo(ops[1..], v);
      NonStoresAppend(head, DropStoresTo(ops[1..], v));
    }
  }

  lemma {:induction false} NonStoresAppend(a: seq<Op>, b: seq<Op>)
    ensures NonStores(a + b) == NonStores(a) + NonStores(b)
  {
    if |a| > 0 {
      NonStoresAppend(a[1..], b);
      TailAppend(a, b);
      var h := if a[0].Store? then [] else [a[0]];
      assert NonStores(a + b) == h + NonStores((a + b)[1..]);
      Assoc(h, NonStores(a[1..]), NonStores(b));
    } else {
      assert a + b == b;
    }
  }
}
