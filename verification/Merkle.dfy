/** The Merkle tree hash, inclusion proofs and their verifier (section 2.1 of RFC 9162).

    SHA-256 is modelled as a free function: a digest is the term that was hashed, and
    the 0x00 / 0x01 prefixes are two constructors.  "Equal digests" below therefore
    reads "equal, unless someone exhibits a SHA-256 collision". */
module Merkle {
  import opened Wrappers
  import opened Events

  datatype Digest = EmptyHash | LeafHash(entry: Entry) | NodeHash(left: Digest, right: Digest)

  // ---------- powers of two ----------

  function Pow2(e: nat): (p: nat)
    ensures p > 0
  {
    if e == 0 then 1 else 2 * Pow2(e - 1)
  }

  /** `int.bit_length`. */
  function BitLength(n: nat): nat {
    if n == 0 then 0 else 1 + BitLength(n / 2)
  }

  lemma {:induction false} BitLengthBounds(n: nat)
    requires n > 0
    ensures BitLength(n) > 0
    ensures Pow2(BitLength(n) - 1) <= n < Pow2(BitLength(n))
  {
    if n > 1 {
      BitLengthBounds(n / 2);
    }
  }

  lemma {:induction false} BitLengthMonotone(a: nat, b: nat)
    requires a <= b
    ensures BitLength(a) <= BitLength(b)
  {
    if a > 0 {
      BitLengthMonotone(a / 2, b / 2);
    }
  }

  /** The split point of a tree of `n` leaves. */
  function Split(n: nat): (k: nat)
    requires n >= 2
    ensures 0 < k < n <= 2 * k
    ensures k == Pow2(BitLength(n - 1) - 1)
  {
    BitLengthBounds(n - 1);
    Pow2(BitLength(n - 1) - 1)
  }

  // ---------- the tree hash ----------

  function TreeHash(leaves: seq<Digest>): Digest {
    if |leaves| == 0 then EmptyHash
    else if |leaves| == 1 then leaves[0]
    else
      var k := Split(|leaves|);
      NodeHash(TreeHash(leaves[..k]), TreeHash(leaves[k..]))
  }

  function LeafHashes(entries: seq<Entry>): (leaves: seq<Digest>) {
    seq(|entries|, i requires 0 <= i < |entries| => LeafHash(entries[i]))
  }

  function Root(entries: seq<Entry>): Digest {
    TreeHash(LeafHashes(entries))
  }

  /** The entries found at the leaves of a digest term, left to right. */
  function Fringe(digest: Digest): seq<Entry> {
    match digest
    case EmptyHash => []
    case LeafHash(entry) => [entry]
    case NodeHash(left, right) => Fringe(left) + Fringe(right)
  }

  lemma {:induction false} FringeOfRoot(entries: seq<Entry>)
    ensures Fringe(Root(entries)) == entries
    decreases |entries|
  {
    if |entries| >= 2 {
      var k := Split(|entries|);
      assert LeafHashes(entries)[..k] == LeafHashes(entries[..k]);
      assert LeafHashes(entries)[k..] == LeafHashes(entries[k..]);
      FringeOfRoot(entries[..k]);
      FringeOfRoot(entries[k..]);
      assert entries == entries[..k] + entries[k..];
    }
  }

  /** The root alone determines the entries and how many there are. */
  lemma RootInjective(a: seq<Entry>, b: seq<Entry>)
    requires Root(a) == Root(b)
    ensures a == b
  {
    FringeOfRoot(a);
    FringeOfRoot(b);
  }

  // ---------- inclusion ----------

  /** The audit path of leaf `m`, leaf to root. */
  function Path(leaves: seq<Digest>, m: nat): (path: seq<Digest>)
    requires m < |leaves|
    decreases |leaves|
  {
    if |leaves| == 1 then []
    else
      var k := Split(|leaves|);
      if m < k then Path(leaves[..k], m) + [TreeHash(leaves[k..])]
      else Path(leaves[k..], m - k) + [TreeHash(leaves[..k])]
  }

  datatype MerkleError = IndexOutOfRange | SizeOutOfRange

  function InclusionProof(entries: seq<Entry>, index: int): Result<seq<Digest>, MerkleError> {
    if 0 <= index < |entries| then Ok(Path(LeafHashes(entries), index)) else Err(IndexOutOfRange)
  }

  /** Root-to-leaf turns of leaf `m` in a tree of `n`; true is left. */
  function Turns(m: nat, n: nat): seq<bool>
    requires m < n
    decreases n
  {
    if n == 1 then []
    else
      var k := Split(n);
      if m < k then [true] + Turns(m, k) else [false] + Turns(m - k, n - k)
  }

  function Climb(leaf: Digest, turns: seq<bool>, proof: seq<Digest>, steps: nat): Digest
    requires steps <= |proof| == |turns|
  {
    if steps == 0 then leaf
    else
      var below := Climb(leaf, turns, proof, steps - 1);
      var sibling := proof[steps - 1];
      if turns[|turns| - steps] then NodeHash(below, sibling) else NodeHash(sibling, below)
  }

  lemma {:induction false} ClimbSkipsTop(leaf: Digest, turns: seq<bool>, proof: seq<Digest>, steps: nat)
    requires |proof| == |turns| > 0
    requires steps < |proof|
    ensures Climb(leaf, turns, proof, steps) == Climb(leaf, turns[1..], proof[..|proof| - 1], steps)
  {
    if steps > 0 {
      ClimbSkipsTop(leaf, turns, proof, steps - 1);
    }
  }

  /** The last step of a climb joins the top sibling on the side the first turn left it. */
  lemma ClimbTop(leaf: Digest, turns: seq<bool>, proof: seq<Digest>)
    requires |proof| == |turns| > 0
    ensures
      var lower, last := proof[..|proof| - 1], proof[|proof| - 1];
      var below := Climb(leaf, turns[1..], lower, |lower|);
      Climb(leaf, turns, proof, |proof|) == if turns[0] then NodeHash(below, last) else NodeHash(last, below)
  {
    ClimbSkipsTop(leaf, turns, proof, |proof| - 1);
  }

  /** Climbing `proof` from `leaf` reaches the root exactly when `leaf` is leaf `m` and
      `proof` is its audit path, sibling for sibling. */
  lemma {:induction false} ClimbExact(leaf: Digest, leaves: seq<Digest>, m: nat, proof: seq<Digest>)
    requires m < |leaves|
    requires |proof| == |Turns(m, |leaves|)|
    ensures Climb(leaf, Turns(m, |leaves|), proof, |proof|) == TreeHash(leaves)
       <==> leaf == leaves[m] && proof == Path(leaves, m)
    decreases |leaves|
  {
    if |leaves| > 1 {
      var k := Split(|leaves|);
      var turns := Turns(m, |leaves|);
      var lower := proof[..|proof| - 1];
      ClimbTop(leaf, turns, proof);
      assert proof == lower + [proof[|proof| - 1]];
      if m < k {
        assert turns[1..] == Turns(m, k);
        ClimbExact(leaf, leaves[..k], m, lower);
      } else {
        assert turns[1..] == Turns(m - k, |leaves| - k);
        ClimbExact(leaf, leaves[k..], m - k, lower);
      }
    }
  }

  lemma {:induction false} PathLength(leaves: seq<Digest>, m: nat)
    requires m < |leaves|
    ensures |Path(leaves, m)| == |Turns(m, |leaves|)|
    decreases |leaves|
  {
    if |leaves| > 1 {
      var k := Split(|leaves|);
      if m < k {
        PathLength(leaves[..k], m);
      } else {
        PathLength(leaves[k..], m - k);
      }
    }
  }

  lemma {:induction false} TurnsLength(m: nat, n: nat)
    requires m < n
    ensures |Turns(m, n)| <= BitLength(n - 1)
    decreases n
  {
    if n > 1 {
      var k, e := Split(n), BitLength(n - 1) - 1;
      BitLengthOfPow2Minus1(e);
      if m < k {
        TurnsLength(m, k);
      } else {
        TurnsLength(m - k, n - k);
        BitLengthMonotone(n - k - 1, k - 1);
      }
    }
  }

  lemma {:induction false} BitLengthOfPow2Minus1(e: nat)
    ensures BitLength(Pow2(e) - 1) == e
  {
    if e > 0 {
      BitLengthOfPow2Minus1(e - 1);
      assert (Pow2(e) - 1) / 2 == Pow2(e - 1) - 1;
    }
  }

  /** What `verify_inclusion` accepts, stated without its loops. */
  ghost predicate InclusionAccepts(root: Digest, entry: Entry, index: int, treeSize: int, proof: seq<Digest>) {
    && 0 <= index < treeSize
    && |proof| == |Turns(index, treeSize)|
    && Climb(LeafHash(entry), Turns(index, treeSize), proof, |proof|) == root
  }

  lemma TurnsStep(done: seq<bool>, m: nat, size: nat)
    requires m < size && size > 1
    ensures
      var k := Split(size);
      done + Turns(m, size) == if m < k then (done + [true]) + Turns(m, k)
          else (done + [false]) + Turns(m - k, size - k)
  {
  }

  /** The root-to-leaf trace: which half of each subtree holds the target. */
  method TraceTurns(index: nat, treeSize: nat) returns (isLeft: seq<bool>)
    requires index < treeSize
    ensures isLeft == Turns(index, treeSize)
  {
    isLeft := [];
    var m, size := index, treeSize;
    ghost var all := Turns(index, treeSize);
    while size > 1
      invariant 0 <= m < size
      invariant isLeft + Turns(m, size) == all
      decreases size
    {
      TurnsStep(isLeft, m, size);
      var k := Split(size);
      if m < k {
        isLeft := isLeft + [true];
        size := k;
      } else {
        isLeft := isLeft + [false];
        m := m - k;
        size := size - k;
      }
    }
  }

  /** The top-down verifier: trace the turns, then hash from the leaf upward. */
  method VerifyInclusion(root: Digest, entry: Entry, index: int, treeSize: int, proof: seq<Digest>) returns (ok: bool)
    ensures ok <==> InclusionAccepts(root, entry, index, treeSize, proof)
  {
    if !(0 <= index < treeSize) {
      return false;
    }
    if treeSize == 1 {
      return proof == [] && LeafHash(entry) == root;
    }
    var isLeft := TraceTurns(index, treeSize);
    if |isLeft| != |proof| {
      return false;
    }
    var computed := LeafHash(entry);
    for j := 0 to |proof|
      invariant computed == Climb(LeafHash(entry), isLeft, proof, j)
    {
      var wentLeft, sibling := isLeft[|isLeft| - 1 - j], proof[j];
      computed := if wentLeft then NodeHash(computed, sibling) else NodeHash(sibling, computed);
    }
    return computed == root;
  }

  /** Completeness and position binding at once.  Against the root of `entries`, the
      verifier accepts precisely the entry stored at `index` with precisely the
      generated path; every other claim is refused. */
  lemma InclusionExact(entries: seq<Entry>, entry: Entry, index: int, proof: seq<Digest>)
    ensures InclusionAccepts(Root(entries), entry, index, |entries|, proof)
       <==> 0 <= index < |entries| && entry == entries[index] && InclusionProof(entries, index) == Ok(proof)
  {
    if 0 <= index < |entries| {
      var leaves := LeafHashes(entries);
      PathLength(leaves, index);
      if |proof| == |Turns(index, |entries|)| {
        ClimbExact(LeafHash(entry), leaves, index, proof);
      }
    }
  }

  /** A proof never exceeds ceil(log2 n) digests. */
  lemma InclusionProofLength(entries: seq<Entry>, index: nat)
    requires index < |entries|
    ensures |InclusionProof(entries, index).value| <= BitLength(|entries| - 1)
    ensures Pow2(BitLength(|entries| - 1)) < 2 * |entries|
  {
    PathLength(LeafHashes(entries), index);
    TurnsLength(index, |entries|);
    BitLengthIsTight(|entries| - 1);
  }

  lemma {:induction false} BitLengthIsTight(n: nat)
    ensures Pow2(BitLength(n)) <= if n == 0 then 1 else 2 * n
  {
    if n > 0 {
      BitLengthIsTight(n / 2);
      assert Pow2(BitLength(n)) == 2 * Pow2(BitLength(n / 2));
    }
  }
}
