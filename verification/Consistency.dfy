/** Consistency proofs (section 2.1.4 of RFC 9162): the recursive generator, and the
    iterative verifier that walks the bits of the two tree sizes. */
module Consistency {
  import opened Wrappers
  import opened Events
  import opened Merkle

  // ---------- the generator ----------

  function SubProof(m: nat, leaves: seq<Digest>, completeSubtree: bool): seq<Digest>
    requires 0 < m <= |leaves|
    decreases |leaves|
  {
    if m == |leaves| then
      if completeSubtree then [] else [TreeHash(leaves)]
    else
      var k := Split(|leaves|);
      if m <= k then SubProof(m, leaves[..k], completeSubtree) + [TreeHash(leaves[k..])]
      else SubProof(m - k, leaves[k..], false) + [TreeHash(leaves[..k])]
  }

  function ConsistencyProof(entries: seq<Entry>, oldSize: int): Result<seq<Digest>, MerkleError> {
    if !(0 <= oldSize <= |entries|) then Err(SizeOutOfRange)
    else if oldSize == 0 || oldSize == |entries| then Ok([])
    else Ok(SubProof(oldSize, LeafHashes(entries), true))
  }

  // ---------- the verifier, by recursion on the tree ----------

  /** The two roots a proof describes, rebuilt by following the tree from the top. */
  function Rebuild(m: nat, n: nat, complete: bool, seed: Digest, proof: seq<Digest>): Option<(Digest, Digest)>
    requires 0 < m <= n
    decreases n
  {
    if m == n then
      if complete then (if proof == [] then Some((seed, seed)) else None)
      else if |proof| == 1 then Some((proof[0], proof[0])) else None
    else if proof == [] then None
    else
      var k := Split(n);
      var lower, last := proof[..|proof| - 1], proof[|proof| - 1];
      if m <= k then
        match Rebuild(m, k, complete, seed, lower)
        case None => None
        case Some((first, second)) => Some((first, NodeHash(second, last)))
      else
        match Rebuild(m - k, n - k, false, seed, lower)
        case None => None
        case Some((first, second)) => Some((NodeHash(last, first), NodeHash(last, second)))
  }

  /** What `verify_consistency` accepts, stated without its loops or bit tests. */
  ghost predicate ConsistencyAccepts(oldRoot: Digest, newRoot: Digest, oldSize: int, newSize: int, proof: seq<Digest>) {
    && 0 <= oldSize <= newSize
    && if oldSize == 0 then proof == []
       else if oldSize == newSize then proof == [] && oldRoot == newRoot
       else Rebuild(oldSize, newSize, true, oldRoot, proof) == Some((oldRoot, newRoot))
  }

  /** Against the root of `leaves`, only the generated proof rebuilds the new root, and
      the old root it rebuilds is the root of the first `m` leaves. */
  lemma {:induction false} RebuildSound(m: nat, leaves: seq<Digest>, complete: bool, seed: Digest, proof: seq<Digest>)
    requires 0 < m <= |leaves|
    requires
      var r := Rebuild(m, |leaves|, complete, seed, proof);
      r.Some? && r.value.1 == TreeHash(leaves)
    ensures proof == SubProof(m, leaves, complete)
    ensures Rebuild(m, |leaves|, complete, seed, proof).value.0 == TreeHash(leaves[..m])
    decreases |leaves|
  {
    if m == |leaves| {
      assert leaves[..m] == leaves;
    } else {
      var k, lower := Split(|leaves|), proof[..|proof| - 1];
      assert proof == lower + [proof[|proof| - 1]];
      if m <= k {
        assert leaves[..k][..m] == leaves[..m];
        RebuildSound(m, leaves[..k], complete, seed, lower);
      } else {
        RebuildSound(m - k, leaves[k..], false, seed, lower);
        TreeHashOfPrefix(m, leaves);
      }
    }
  }

  lemma RebuildLow(m: nat, n: nat, complete: bool, seed: Digest, lower: seq<Digest>, last: Digest,
      roots: (Digest, Digest))
    requires 0 < m < n && m <= Split(n)
    requires Rebuild(m, Split(n), complete, seed, lower) == Some(roots)
    ensures Rebuild(m, n, complete, seed, lower + [last]) == Some((roots.0, NodeHash(roots.1, last)))
  {
    assert (lower + [last])[..|lower|] == lower;
  }

  lemma RebuildHigh(m: nat, n: nat, complete: bool, seed: Digest, lower: seq<Digest>, last: Digest,
      roots: (Digest, Digest))
    requires 0 < m < n && Split(n) < m
    requires Rebuild(m - Split(n), n - Split(n), false, seed, lower) == Some(roots)
    ensures Rebuild(m, n, complete, seed, lower + [last]) == Some((NodeHash(last, roots.0), NodeHash(last, roots.1)))
  {
    assert (lower + [last])[..|lower|] == lower;
  }

  /** The generated proof rebuilds both roots. */
  lemma {:induction false} RebuildComplete(m: nat, leaves: seq<Digest>, complete: bool, seed: Digest)
    requires 0 < m <= |leaves|
    requires complete ==> seed == TreeHash(leaves[..m])
    ensures Rebuild(m, |leaves|, complete, seed, SubProof(m, leaves, complete))
         == Some((TreeHash(leaves[..m]), TreeHash(leaves)))
    decreases |leaves|
  {
    if m == |leaves| {
      assert leaves[..m] == leaves;
    } else {
      var k := Split(|leaves|);
      if m <= k {
        assert leaves[..k][..m] == leaves[..m];
        RebuildComplete(m, leaves[..k], complete, seed);
        RebuildLowComplete(m, leaves, complete, seed);
      } else {
        RebuildComplete(m - k, leaves[k..], false, seed);
        RebuildHighComplete(m, leaves, complete, seed);
      }
    }
  }

  lemma RebuildLowComplete(m: nat, leaves: seq<Digest>, complete: bool, seed: Digest)
    requires 0 < m < |leaves| && m <= Split(|leaves|)
    requires Rebuild(m, Split(|leaves|), complete, seed, SubProof(m, leaves[..Split(|leaves|)], complete))
          == Some((TreeHash(leaves[..m]), TreeHash(leaves[..Split(|leaves|)])))
    ensures Rebuild(m, |leaves|, complete, seed, SubProof(m, leaves, complete))
         == Some((TreeHash(leaves[..m]), TreeHash(leaves)))
  {
    var k := Split(|leaves|);
    var left, right := leaves[..k], TreeHash(leaves[k..]);
    RebuildLow(m, |leaves|, complete, seed, SubProof(m, left, complete), right,
        (TreeHash(leaves[..m]), TreeHash(left)));
  }

  lemma RebuildHighComplete(m: nat, leaves: seq<Digest>, complete: bool, seed: Digest)
    requires 1 < m < |leaves| && Split(|leaves|) < m
    requires
      var k := Split(|leaves|);
      Rebuild(m - k, |leaves| - k, false, seed, SubProof(m - k, leaves[k..], false))
      == Some((TreeHash(leaves[k..][..m - k]), TreeHash(leaves[k..])))
    ensures Rebuild(m, |leaves|, complete, seed, SubProof(m, leaves, complete))
         == Some((TreeHash(leaves[..m]), TreeHash(leaves)))
  {
    var k := Split(|leaves|);
    var left, right := TreeHash(leaves[..k]), leaves[k..];
    var lower, roots := SubProof(m - k, right, false), (TreeHash(right[..m - k]), TreeHash(right));
    RebuildHigh(m, |leaves|, complete, seed, lower, left, roots);
    TreeHashOfPrefix(m, leaves);
    HighHalves(m, leaves, complete, k, left, lower);
  }

  lemma HighHalves(m: nat, leaves: seq<Digest>, complete: bool, k: nat, left: Digest, lower: seq<Digest>)
    requires 1 < m < |leaves| && k == Split(|leaves|) < m
    requires left == TreeHash(leaves[..k]) && lower == SubProof(m - k, leaves[k..], false)
    ensures TreeHash(leaves) == NodeHash(left, TreeHash(leaves[k..]))
    ensures SubProof(m, leaves, complete) == lower + [left]
  {
  }

  /** A prefix longer than the split has the same split. */
  lemma TreeHashOfPrefix(m: nat, leaves: seq<Digest>)
    requires 2 <= |leaves| && Split(|leaves|) < m < |leaves|
    ensures
      var k := Split(|leaves|);
      TreeHash(leaves[..m]) == NodeHash(TreeHash(leaves[..k]), TreeHash(leaves[k..][..m - k]))
  {
    var n, k := |leaves|, Split(|leaves|);
    SplitUnique(m, BitLength(n - 1) - 1);
    assert leaves[..m][..k] == leaves[..k];
    assert leaves[..m][k..] == leaves[k..][..m - k];
  }

  lemma SplitUnique(n: nat, e: nat)
    requires Pow2(e) < n <= 2 * Pow2(e)
    ensures n >= 2 && Split(n) == Pow2(e)
  {
    BitLengthBounds(n - 1);
    var b := BitLength(n - 1);
    if b - 1 < e {
      Pow2Monotone(b, e);
    } else if b - 1 > e {
      Pow2Monotone(e + 1, b - 1);
    }
  }

  lemma {:induction false} Pow2Monotone(a: nat, b: nat)
    requires a <= b
    ensures Pow2(a) <= Pow2(b)
    decreases b
  {
    if a < b {
      Pow2Monotone(a, b - 1);
    }
  }

  /** Consistency, completely characterised.  For every list and every old size, the
      verifier accepts exactly the generated proof, and then the old root is the root
      of the old prefix.  Size 0 is the one exception: the code never reads the old
      root there, so any value passes. */
  lemma ConsistencyExact(entries: seq<Entry>, oldRoot: Digest, oldSize: int, proof: seq<Digest>)
    ensures ConsistencyAccepts(oldRoot, Root(entries), oldSize, |entries|, proof)
       <==> && 0 <= oldSize <= |entries|
            && ConsistencyProof(entries, oldSize) == Ok(proof)
            && (oldSize == 0 || oldRoot == Root(entries[..oldSize]))
  {
    if 0 < oldSize <= |entries| {
      var leaves := LeafHashes(entries);
      assert leaves[..oldSize] == LeafHashes(entries[..oldSize]);
      if oldSize == |entries| {
        assert entries[..oldSize] == entries;
      } else {
        if Rebuild(oldSize, |leaves|, true, oldRoot, proof) == Some((oldRoot, TreeHash(leaves))) {
          RebuildSound(oldSize, leaves, true, oldRoot, proof);
        }
        if oldRoot == TreeHash(leaves[..oldSize]) {
          RebuildComplete(oldSize, leaves, true, oldRoot);
        }
      }
    }
  }

  /** An accepted proof has a length fixed by the two sizes alone. */
  lemma ConsistencyProofLength(oldRoot: Digest, newRoot: Digest, m: nat, n: nat, proof: seq<Digest>)
    requires 0 < m < n
    requires ConsistencyAccepts(oldRoot, newRoot, m, n, proof)
    ensures |proof| == |Moves(m, n)| + (if IsPow2(m) then 0 else 1)
  {
    RebuildIsFold(m, n, true, oldRoot, proof);
  }

  // ---------- the moves of a proof, from the top and from the bottom ----------

  /** One proof element either extends both roots on the left, or the new root on the right. */
  datatype Move = ExtendBoth | ExtendNew

  /** The moves, leaf to root, read off the recursive tree. */
  function Moves(m: nat, n: nat): seq<Move>
    requires 0 < m <= n
    decreases n
  {
    if m == n then []
    else
      var k := Split(n);
      if m <= k then Moves(m, k) + [ExtendNew] else Moves(m - k, n - k) + [ExtendBoth]
  }

  /** The moves, leaf to root, read off the bits of `fn` and `sn` one level at a time. */
  function BitWalk(fn: nat, sn: nat): seq<Move> {
    if sn == 0 then []
    else if fn % 2 == 1 then [ExtendBoth] + BitWalk(fn / 2, sn / 2)
    else if fn == sn then BitWalk(fn / 2, sn / 2)
    else [ExtendNew] + BitWalk(fn / 2, sn / 2)
  }

  /** The walk after the trailing ones of `fn` are shifted away. */
  function BitWalkFromSeed(fn: nat, sn: nat): seq<Move>
    decreases fn
  {
    if fn % 2 == 1 then BitWalkFromSeed(fn / 2, sn / 2) else BitWalk(fn, sn)
  }

  /** Dropping the top bit of `sn` alone drops a final ExtendNew. */
  lemma {:induction false} WalkBelowSplit(fn: nat, sn: nat, e: nat)
    requires fn < Pow2(e) <= sn < 2 * Pow2(e)
    ensures BitWalk(fn, sn) == BitWalk(fn, Pow2(e) - 1) + [ExtendNew]
    decreases e
  {
    if e > 0 {
      assert (Pow2(e) - 1) / 2 == Pow2(e - 1) - 1 && (Pow2(e) - 1) % 2 == 1;
      WalkBelowSplit(fn / 2, sn / 2, e - 1);
    }
  }

  /** Dropping the top bit of both drops a final ExtendBoth. */
  lemma {:induction false} WalkAboveSplit(fn: nat, sn: nat, e: nat)
    requires Pow2(e) <= fn <= sn < 2 * Pow2(e)
    ensures BitWalk(fn, sn) == BitWalk(fn - Pow2(e), sn - Pow2(e)) + [ExtendBoth]
    decreases e
  {
    if e > 0 {
      WalkAboveSplit(fn / 2, sn / 2, e - 1);
      assert (fn - Pow2(e)) / 2 == fn / 2 - Pow2(e - 1);
      assert (sn - Pow2(e)) / 2 == sn / 2 - Pow2(e - 1);
    }
  }

  lemma {:induction false} SeedWalkBelowSplit(fn: nat, sn: nat, e: nat)
    requires fn < Pow2(e) <= sn < 2 * Pow2(e)
    ensures BitWalkFromSeed(fn, sn)
         == (if fn == Pow2(e) - 1 then [] else BitWalkFromSeed(fn, Pow2(e) - 1)) + [ExtendNew]
    decreases e
  {
    if e > 0 {
      assert (Pow2(e) - 1) / 2 == Pow2(e - 1) - 1 && (Pow2(e) - 1) % 2 == 1;
      if fn % 2 == 1 {
        SeedWalkBelowSplit(fn / 2, sn / 2, e - 1);
      } else {
        WalkBelowSplit(fn, sn, e);
      }
    }
  }

  lemma {:induction false} SeedWalkAboveSplit(fn: nat, sn: nat, e: nat)
    requires Pow2(e) <= fn < sn < 2 * Pow2(e)
    ensures BitWalkFromSeed(fn, sn) == BitWalkFromSeed(fn - Pow2(e), sn - Pow2(e)) + [ExtendBoth]
    decreases e
  {
    if e > 0 {
      assert (fn - Pow2(e)) / 2 == fn / 2 - Pow2(e - 1);
      assert (sn - Pow2(e)) / 2 == sn / 2 - Pow2(e - 1);
      if fn % 2 == 1 {
        SeedWalkAboveSplit(fn / 2, sn / 2, e - 1);
      } else {
        WalkAboveSplit(fn, sn, e);
      }
    }
  }

  /** The walk on the bits of (m - 1, n - 1), lowest bit first, spells out the path the
      recursion on the tree takes from the top. */
  lemma {:induction false} BitWalkFollowsTree(m: nat, n: nat)
    requires 0 < m < n
    ensures BitWalkFromSeed(m - 1, n - 1) == Moves(m, n)
    decreases n
  {
    var k, e := Split(n), BitLength(n - 1) - 1;
    if m <= k {
      SeedWalkBelowSplit(m - 1, n - 1, e);
      if m < k {
        BitWalkFollowsTree(m, k);
      }
    } else {
      SeedWalkAboveSplit(m - 1, n - 1, e);
      BitWalkFollowsTree(m - k, n - k);
    }
  }

  // ---------- folding a proof along its moves ----------

  function Extend(roots: (Digest, Digest), move: Move, node: Digest): (Digest, Digest) {
    match move
    case ExtendBoth => (NodeHash(node, roots.0), NodeHash(node, roots.1))
    case ExtendNew => (roots.0, NodeHash(roots.1, node))
  }

  /** The two roots after all `moves`, starting from the seed digest `nodes[0]`. */
  function Fold(moves: seq<Move>, nodes: seq<Digest>): (Digest, Digest)
    requires |nodes| == |moves| + 1
  {
    if moves == [] then (nodes[0], nodes[0])
    else Extend(Fold(moves[..|moves| - 1], nodes[..|moves|]), moves[|moves| - 1], nodes[|moves|])
  }

  predicate IsPow2(n: nat) {
    n == 1 || (n > 1 && n % 2 == 0 && IsPow2(n / 2))
  }

  lemma {:induction false} IsPow2OfPow2(e: nat)
    ensures IsPow2(Pow2(e))
  {
    if e > 0 {
      IsPow2OfPow2(e - 1);
    }
  }

  lemma {:induction false} NoPow2Between(e: nat, m: nat)
    requires Pow2(e) < m < 2 * Pow2(e)
    ensures !IsPow2(m)
  {
    if e > 0 && m % 2 == 0 {
      NoPow2Between(e - 1, m / 2);
    }
  }

  /** Bitwise conjunction on naturals. */
  function BitAnd(a: nat, b: nat): nat {
    if a == 0 || b == 0 then 0
    else 2 * BitAnd(a / 2, b / 2) + (if a % 2 == 1 && b % 2 == 1 then 1 else 0)
  }

  lemma {:induction false} BitAndSelf(a: nat)
    ensures BitAnd(a, a) == a
  {
    if a > 0 {
      BitAndSelf(a / 2);
    }
  }

  /** The `m & (m - 1) == 0` test recognises the powers of two. */
  lemma {:induction false} BitTestIsPow2(m: nat)
    requires m > 0
    ensures BitAnd(m, m - 1) == 0 <==> IsPow2(m)
  {
    if m % 2 == 1 {
      BitAndSelf(m / 2);
      assert (m - 1) / 2 == m / 2;
    } else {
      assert (m - 1) / 2 == m / 2 - 1;
      BitTestIsPow2(m / 2);
    }
  }

  /** The digests the fold runs over: a power-of-two old tree is its own seed. */
  function Nodes(m: nat, complete: bool, seed: Digest, proof: seq<Digest>): seq<Digest> {
    if complete && IsPow2(m) then [seed] + proof else proof
  }

  function FoldIfSized(moves: seq<Move>, nodes: seq<Digest>): Option<(Digest, Digest)> {
    if |nodes| == |moves| + 1 then Some(Fold(moves, nodes)) else None
  }

  /** Rebuilding from the top equals folding from the bottom. */
  lemma {:induction false} RebuildIsFold(m: nat, n: nat, complete: bool, seed: Digest, proof: seq<Digest>)
    requires 0 < m <= n
    requires m == n && complete ==> IsPow2(m)
    ensures Rebuild(m, n, complete, seed, proof) == FoldIfSized(Moves(m, n), Nodes(m, complete, seed, proof))
    decreases n
  {
    if m < n && proof != [] {
      var k, e := Split(n), BitLength(n - 1) - 1;
      var lower := proof[..|proof| - 1];
      if m <= k {
        IsPow2OfPow2(e);
        RebuildIsFold(m, k, complete, seed, lower);
        FoldExtendNew(m, k, complete, seed, proof);
      } else {
        NoPow2Between(e, m);
        RebuildIsFold(m - k, n - k, false, seed, lower);
        FoldExtendBoth(m, k, n, complete, seed, proof);
      }
    }
  }

  lemma FoldExtendNew(m: nat, k: nat, complete: bool, seed: Digest, proof: seq<Digest>)
    requires 0 < m <= k && proof != []
    ensures
      var lower, last := proof[..|proof| - 1], proof[|proof| - 1];
      var below := FoldIfSized(Moves(m, k), Nodes(m, complete, seed, lower));
      FoldIfSized(Moves(m, k) + [ExtendNew], Nodes(m, complete, seed, proof))
      == if below.None? then None else Some(Extend(below.value, ExtendNew, last))
  {
    var lower, last := proof[..|proof| - 1], proof[|proof| - 1];
    assert Nodes(m, complete, seed, proof) == Nodes(m, complete, seed, lower) + [last];
    FoldSnoc(Moves(m, k), ExtendNew, Nodes(m, complete, seed, lower), last);
  }

  lemma FoldExtendBoth(m: nat, k: nat, n: nat, complete: bool, seed: Digest, proof: seq<Digest>)
    requires 0 < k < m <= n && proof != [] && !IsPow2(m)
    ensures
      var lower, last := proof[..|proof| - 1], proof[|proof| - 1];
      var below := FoldIfSized(Moves(m - k, n - k), Nodes(m - k, false, seed, lower));
      FoldIfSized(Moves(m - k, n - k) + [ExtendBoth], Nodes(m, complete, seed, proof))
      == if below.None? then None else Some(Extend(below.value, ExtendBoth, last))
  {
    var lower, last := proof[..|proof| - 1], proof[|proof| - 1];
    assert Nodes(m, complete, seed, proof) == lower + [last];
    FoldSnoc(Moves(m - k, n - k), ExtendBoth, lower, last);
  }

  lemma FoldSnoc(moves: seq<Move>, move: Move, nodes: seq<Digest>, node: Digest)
    ensures FoldIfSized(moves + [move], nodes + [node])
         == if |nodes| == |moves| + 1 then Some(Extend(Fold(moves, nodes), move, node)) else None
  {
    assert (moves + [move])[..|moves|] == moves;
    if |nodes| == |moves| + 1 {
      assert (nodes + [node])[..|moves + [move]|] == nodes;
    }
  }

  // ---------- the verifier, as the loop it is ----------

  /** Shift the trailing ones of `fn` out of both counters. */
  method SkipTrailingOnes(fn0: nat, sn0: nat) returns (fn: nat, sn: nat)
    requires fn0 < sn0
    ensures BitWalk(fn, sn) == BitWalkFromSeed(fn0, sn0)
    ensures fn <= sn && fn % 2 == 0
  {
    fn, sn := fn0, sn0;
    while fn % 2 == 1
      invariant fn <= sn
      invariant BitWalkFromSeed(fn, sn) == BitWalkFromSeed(fn0, sn0)
      decreases fn
    {
      fn, sn := fn / 2, sn / 2;
    }
  }

  /** After an ExtendBoth: shift to the lowest set bit of `fn`, then past it. */
  method ShiftPastSetBit(fn0: nat, sn0: nat) returns (fn: nat, sn: nat)
    requires fn0 <= sn0 && sn0 > 0
    requires fn0 % 2 == 1 || fn0 == sn0
    ensures fn <= sn
    ensures BitWalk(fn0, sn0) == [ExtendBoth] + BitWalk(fn, sn)
  {
    fn, sn := fn0, sn0;
    while fn % 2 == 0 && fn != 0
      invariant fn <= sn && sn > 0
      invariant fn % 2 == 1 || fn == sn
      invariant BitWalk(fn, sn) == BitWalk(fn0, sn0)
      decreases fn
    {
      fn, sn := fn / 2, sn / 2;
    }
    fn, sn := fn / 2, sn / 2;
  }

  lemma {:induction false} BitWalkEnds(fn: nat, sn: nat)
    requires sn > 0
    ensures BitWalk(fn, sn) != []
  {
    if fn % 2 == 0 && fn == sn {
      BitWalkEnds(fn / 2, sn / 2);
    }
  }

  /** The walk over `nodes[1..]`, seeded with `nodes[0]`; None when the proof is too long
      or too short for the two sizes. */
  method WalkProof(nodes: seq<Digest>, fn0: nat, sn0: nat, ghost moves: seq<Move>)
      returns (roots: Option<(Digest, Digest)>)
    requires nodes != [] && fn0 <= sn0
    requires moves == BitWalk(fn0, sn0)
    ensures roots == FoldIfSized(moves, nodes)
  {
    var fn, sn := fn0, sn0;
    var firstRoot, secondRoot := nodes[0], nodes[0];
    var i := 1;
    while i < |nodes|
      invariant 1 <= i <= |nodes| && i - 1 <= |moves|
      invariant fn <= sn
      invariant moves[i - 1..] == BitWalk(fn, sn)
      invariant (firstRoot, secondRoot) == Fold(moves[..i - 1], nodes[..i])
    {
      if sn == 0 {
        return None;
      }
      BitWalkEnds(fn, sn);
      FoldStep(moves, nodes, i);
      var node := nodes[i];
      ghost var walk := BitWalk(fn, sn);
      if fn % 2 == 1 || fn == sn {
        firstRoot := NodeHash(node, firstRoot);
        secondRoot := NodeHash(node, secondRoot);
        fn, sn := ShiftPastSetBit(fn, sn);
        WalkRest(moves, i, walk, ExtendBoth, BitWalk(fn, sn));
      } else {
        secondRoot := NodeHash(secondRoot, node);
        fn, sn := fn / 2, sn / 2;
        WalkRest(moves, i, walk, ExtendNew, BitWalk(fn, sn));
      }
      i := i + 1;
    }
    if sn > 0 {
      BitWalkEnds(fn, sn);
      return None;
    }
    assert moves[..i - 1] == moves && nodes[..i] == nodes;
    return Some((firstRoot, secondRoot));
  }

  lemma WalkRest(moves: seq<Move>, i: nat, walk: seq<Move>, move: Move, rest: seq<Move>)
    requires 1 <= i <= |moves| && moves[i - 1..] == walk && walk == [move] + rest
    ensures moves[i - 1] == move && moves[i..] == rest
  {
    assert moves[i - 1] == walk[0];
    assert moves[i..] == walk[1..];
  }

  lemma FoldStep(moves: seq<Move>, nodes: seq<Digest>, i: nat)
    requires 1 <= i < |nodes| && i - 1 < |moves|
    ensures Fold(moves[..i], nodes[..i + 1]) == Extend(Fold(moves[..i - 1], nodes[..i]), moves[i - 1], nodes[i])
  {
    assert moves[..i][..i - 1] == moves[..i - 1];
    assert nodes[..i + 1][..i] == nodes[..i];
  }

  /** The iterative bit-walk verifier decides exactly what the recursion decides. */
  method VerifyConsistency(oldRoot: Digest, newRoot: Digest, oldSize: int, newSize: int, proof: seq<Digest>)
    returns (ok: bool)
    ensures ok <==> ConsistencyAccepts(oldRoot, newRoot, oldSize, newSize, proof)
  {
    var m, n := oldSize, newSize;
    if m < 0 || n < 0 || m > n {
      return false;
    }
    if m == 0 {
      return proof == [];
    }
    if m == n {
      return proof == [] && oldRoot == newRoot;
    }
    BitTestIsPow2(m);
    RebuildIsFold(m, n, true, oldRoot, proof);
    BitWalkFollowsTree(m, n);

    var nodes := proof;
    if BitAnd(m, m - 1) == 0 {
      nodes := [oldRoot] + nodes;
    }
    if nodes == [] {
      return false;
    }
    var fn, sn := SkipTrailingOnes(m - 1, n - 1);
    var roots := WalkProof(nodes, fn, sn, Moves(m, n));
    return roots == Some((oldRoot, newRoot));
  }
}
