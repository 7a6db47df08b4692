/** Enumeration of the function's allocation sites (`getAllocas`). */
module Allocas {
  import opened Ir

  predicate IsAlloca(o: Op)
  {
    o.Alloca?
  }

  /** All allocation sites, visiting blocks in layout order and the
      instructions of each block in order. */
  function GetAllocas(f: Func): (r: seq<Op>)
    ensures r == Keep(Flatten(f.blocks), IsAlloca)
    ensures forall o :: o in r <==> o.Alloca? && exists b :: 0 <= b < |f.blocks| && o in f.blocks[b]
  {
    AllocasOfBlocks(f.blocks, [])
  }

  /** The outer loop: append the sites of each block to `acc`. */
  function AllocasOfBlocks(bs: seq<Block>, acc: seq<Op>): (r: seq<Op>)
    ensures r == acc + Keep(Flatten(bs), IsAlloca)
  {
    if |bs| == 0 then acc
    else
      KeepAppend(bs[0], Flatten(bs[1..]), IsAlloca);
      AllocasOfBlocks(bs[1..], AllocasOfOps(bs[0], acc))
  }

  /** The inner loop: push every allocation of `ops` onto `acc`. */
  function AllocasOfOps(ops: seq<Op>, acc: seq<Op>): (r: seq<Op>)
    ensures r == acc + Keep(ops, IsAlloca)
  {
    if |ops| == 0 then acc
    else
      var head := if ops[0].Alloca? then [ops[0]] else [];
      assert Keep(ops, IsAlloca) == head + Keep(ops[1..], IsAlloca);
      Assoc(acc, head, Keep(ops[1..], IsAlloca));
      AllocasOfOps(ops[1..], acc + head)
  }
}
