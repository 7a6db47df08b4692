/** Reachability between basic blocks (`hasPathBetweenBlocks`).

    `hasPathBetweenBlocks` searches depth first over the successor lists and
    remembers no visited blocks. It fails to return exactly when that search
    runs into a cycle before it finds the end block, which can only happen
    when a cycle is reachable from the start block. The model keeps the same
    recursion but cuts it off at a depth equal to the number of blocks. That
    is enough to find every path, because a shortest path never repeats a
    block. */
module Reach {
  import opened Ir

  /** `p` walks the CFG edge by edge from `p[0]` to its last block. */
  ghost predicate IsPath(f: Func, p: seq<nat>)
  {
    && |f.succ| == |f.blocks|
    && |p| > 0
    && (forall i :: 0 <= i < |p| ==> p[i] < |f.blocks|)
    && (forall i :: 0 <= i < |p| - 1 ==> p[i + 1] in f.succ[p[i]])
  }

  ghost predicate Connects(f: Func, p: seq<nat>, s: nat, e: nat)
  {
    IsPath(f, p) && p[0] == s && p[|p| - 1] == e
  }

  /** The recursion of `hasPathBetweenBlocks`, cut off after `k` edges. */
  predicate ReachWithin(f: Func, s: nat, e: nat, k: nat)
    requires WellFormed(f) && s < |f.blocks|
    ensures ReachWithin(f, s, e, k) ==> e < |f.blocks|
    decreases k
  {
    s == e || (k > 0 && exists i :: 0 <= i < |f.succ[s]| && ReachWithin(f, f.succ[s][i], e, k - 1))
  }

  /** The terminating reachability test used by the dataflow analysis. */
  predicate PathExists(f: Func, s: nat, e: nat)
    requires WellFormed(f) && s < |f.blocks|
    ensures PathExists(f, s, e) ==> e < |f.blocks|
  {
    ReachWithin(f, s, e, |f.blocks|)
  }

  /** Reachability within `k` edges is exactly a path of at most `k` edges. */
  lemma {:induction false} ReachWithinIffPath(f: Func, s: nat, e: nat, k: nat)
    requires WellFormed(f) && s < |f.blocks|
    ensures ReachWithin(f, s, e, k) <==> exists p :: Connects(f, p, s, e) && |p| <= k + 1
    decreases k
  {
    if ReachWithin(f, s, e, k) {
      if s == e {
        assert Connects(f, [s], s, e);
      } else {
        var i :| 0 <= i < |f.succ[s]| && ReachWithin(f, f.succ[s][i], e, k - 1);
        var c := f.succ[s][i];
        ReachWithinIffPath(f, c, e, k - 1);
        var q :| Connects(f, q, c, e) && |q| <= k;
        var p := [s] + q;
        assert forall j :: 0 < j < |p| ==> p[j] == q[j - 1];
        assert Connects(f, p, s, e);
      }
    }
    if p :| Connects(f, p, s, e) && |p| <= k + 1 {
      if |p| > 1 {
        var c := p[1];
        assert c in f.succ[s];
        var i :| 0 <= i < |f.succ[s]| && f.succ[s][i] == c;
        var q := p[1..];
        assert Connects(f, q, c, e);
        ReachWithinIffPath(f, c, e, k - 1);
        assert ReachWithin(f, c, e, k - 1);
      }
    }
  }

  /** Cutting out the loop between two visits of the same block keeps a path. */
  lemma CutLoop(f: Func, p: seq<nat>, s: nat, e: nat, i: nat, j: nat) returns (q: seq<nat>)
    requires Connects(f, p, s, e) && i < j < |p| && p[i] == p[j]
    ensures Connects(f, q, s, e) && |q| < |p|
    ensures q == p[..i] + p[j..]
  {
    q := p[..i] + p[j..];
    assert forall k :: 0 <= k < i ==> q[k] == p[k];
    assert forall k :: i <= k < |q| ==> q[k] == p[k - i + j];
    forall k | 0 <= k < |q| - 1
      ensures q[k + 1] in f.succ[q[k]]
    {
      if k + 1 < i {
        assert q[k + 1] == p[k + 1];
      } else if k + 1 == i {
        assert q[k + 1] == p[j] == p[i];
      } else {
        assert q[k] == p[k - i + j] && q[k + 1] == p[k - i + j + 1];
      }
    }
  }

  /** A path whose blocks are pairwise distinct has at most one entry per block. */
  lemma DistinctPathBound(p: seq<nat>, n: nat)
    requires forall i :: 0 <= i < |p| ==> p[i] < n
    requires forall i, j :: 0 <= i < j < |p| ==> p[i] != p[j]
    ensures |p| <= n
  {
    var elems := Elems(p);
    ElemsCard(p);
    var range := Below(n);
    assert elems <= range;
    SubsetCard(elems, range);
  }

  /** The blocks a path visits; pairwise distinct entries give one element each. */
  function Elems(p: seq<nat>): (r: set<nat>)
    ensures forall x :: x in r <==> x in p
  {
    if |p| == 0 then {} else {p[0]} + Elems(p[1..])
  }

  lemma {:induction false} ElemsCard(p: seq<nat>)
    requires forall i, j :: 0 <= i < j < |p| ==> p[i] != p[j]
    ensures |Elems(p)| == |p|
  {
    if |p| > 0 {
      ElemsCard(p[1..]);
      assert p[0] !in p[1..];
    }
  }

  /** The block numbers below `n`. */
  function Below(n: nat): (r: set<nat>)
    ensures forall x: nat :: x in r <==> x < n
    ensures |r| == n
  {
    if n == 0 then {} else Below(n - 1) + {n - 1}
  }

  lemma SubsetCard(a: set<nat>, b: set<nat>)
    requires a <= b
    ensures |a| <= |b|
  {
    if a != {} {
      var x :| x in a;
      SubsetCard(a - {x}, b - {x});
    }
  }

  /** Every connected pair has a connecting path of at most one block per block. */
  lemma {:induction false} ShortPath(f: Func, p: seq<nat>, s: nat, e: nat) returns (q: seq<nat>)
    requires Connects(f, p, s, e)
    ensures Connects(f, q, s, e) && |q| <= |f.blocks|
    decreases |p|
  {
    if i, j :| 0 <= i < j < |p| && p[i] == p[j] {
      var r := CutLoop(f, p, s, e, i, j);
      q := ShortPath(f, r, s, e);
    } else {
      DistinctPathBound(p, |f.blocks|);
      q := p;
    }
  }

  /** The terminating test answers exactly "some path connects s to e". */
  lemma PathExistsIffPath(f: Func, s: nat, e: nat)
    requires WellFormed(f) && s < |f.blocks|
    ensures PathExists(f, s, e) <==> exists p :: Connects(f, p, s, e)
  {
    ReachWithinIffPath(f, s, e, |f.blocks|);
    if p :| Connects(f, p, s, e) {
      var q := ShortPath(f, p, s, e);
      assert Connects(f, q, s, e) && |q| <= |f.blocks| + 1;
    }
  }

  /** Every block reaches itself, successors or not. */
  lemma PathExistsRefl(f: Func, s: nat)
    requires WellFormed(f) && s < |f.blocks|
    ensures PathExists(f, s, s)
  {
  }

  /** Closed under taking a successor step first. */
  lemma PathExistsStep(f: Func, s: nat, i: nat, e: nat)
    requires WellFormed(f) && s < |f.blocks| && i < |f.succ[s]|
    requires PathExists(f, f.succ[s][i], e)
    ensures PathExists(f, s, e)
  {
    var c := f.succ[s][i];
    PathExistsIffPath(f, c, e);
    var q :| Connects(f, q, c, e);
    var p := [s] + q;
    assert forall j :: 0 < j < |p| ==> p[j] == q[j - 1];
    assert Connects(f, p, s, e);
    PathExistsIffPath(f, s, e);
  }

  /** `rank` numbers the blocks so that every edge descends: the CFG is acyclic. */
  predicate Ranked(f: Func, rank: seq<nat>)
  {
    && WellFormed(f)
    && |rank| == |f.blocks|
    && forall s, i :: 0 <= s < |f.succ| && 0 <= i < |f.succ[s]| ==> rank[f.succ[s][i]] < rank[s]
  }

  /** The unguarded recursion of `hasPathBetweenBlocks`; `rank` shows it
      returns on an acyclic CFG. */
  predicate UnguardedPath(f: Func, rank: seq<nat>, s: nat, e: nat)
    requires Ranked(f, rank) && s < |f.blocks|
    decreases rank[s]
  {
    s == e || exists i :: 0 <= i < |f.succ[s]| && UnguardedPath(f, rank, f.succ[s][i], e)
  }

  lemma {:induction false} UnguardedPathIffPath(f: Func, rank: seq<nat>, s: nat, e: nat)
    requires Ranked(f, rank) && s < |f.blocks|
    ensures UnguardedPath(f, rank, s, e) <==> exists p :: Connects(f, p, s, e)
    decreases rank[s]
  {
    if UnguardedPath(f, rank, s, e) {
      if s == e {
        assert Connects(f, [s], s, e);
      } else {
        var i :| 0 <= i < |f.succ[s]| && UnguardedPath(f, rank, f.succ[s][i], e);
        var c := f.succ[s][i];
        UnguardedPathIffPath(f, rank, c, e);
        var q :| Connects(f, q, c, e);
        var p := [s] + q;
        assert forall j :: 0 < j < |p| ==> p[j] == q[j - 1];
        assert Connects(f, p, s, e);
      }
    }
    if p :| Connects(f, p, s, e) {
      if |p| > 1 {
        var c := p[1];
        assert c in f.succ[s];
        var i :| 0 <= i < |f.succ[s]| && f.succ[s][i] == c;
        assert Connects(f, p[1..], c, e);
        UnguardedPathIffPath(f, rank, c, e);
        assert UnguardedPath(f, rank, c, e);
      }
    }
  }

  /** On an acyclic CFG the terminating test agrees with the recursion of
      `hasPathBetweenBlocks`. */
  lemma PathExistsAgreesWithUnguarded(f: Func, rank: seq<nat>, s: nat, e: nat)
    requires Ranked(f, rank) && s < |f.blocks|
    ensures PathExists(f, s, e) == UnguardedPath(f, rank, s, e)
  {
    PathExistsIffPath(f, s, e);
    UnguardedPathIffPath(f, rank, s, e);
  }
}
