/** The Merkle root read from the top: a balanced tree over the padded list, hashed left before right. */
module MerkleTree {
  import opened MerkleRoot
  import opened MerklePadding

  /** The hash tree over a list: a leaf stands for itself, and every other node hashes the trees of its two halves. */
  function Tree(hash: Hash, leaves: seq<Bytes>): Bytes
    requires leaves != []
    decreases |leaves|
  {
    if |leaves| == 1 then leaves[0]
    else
      var half := |leaves| / 2;
      hash([1] + Tree(hash, leaves[..half]) + Tree(hash, leaves[half..]))
  }

  lemma TreeOfHalves(hash: Hash, a: seq<Bytes>, b: seq<Bytes>)
    requires |a| == |b| > 0
    ensures Tree(hash, a + b) == hash([1] + Tree(hash, a) + Tree(hash, b))
  {
    assert (a + b)[..|a|] == a && (a + b)[|a|..] == b;
  }

  /** Going up a level commutes with splitting an even list. */
  lemma AboveOfHalves(hash: Hash, a: seq<Bytes>, b: seq<Bytes>)
    requires a != [] && b != [] && |a| % 2 == 0
    ensures Above(hash, a + b) == Above(hash, a) + Above(hash, b)
  {
    var whole := Above(hash, a + b);
    forall i | 0 <= i < |whole|
      ensures whole[i] == (Above(hash, a) + Above(hash, b))[i]
    {
      PairAt(a + b, i);
      if 2 * i < |a| {
        PairAt(a, i);
      } else {
        PairAt(b, i - |a| / 2);
      }
    }
  }

  ghost predicate Commutes(hash: Hash, leaves: seq<Bytes>) {
    leaves != [] && Tree(hash, leaves) == Tree(hash, Above(hash, leaves))
  }

  lemma AboveOfPair(hash: Hash, leaves: seq<Bytes>)
    requires |leaves| == 2
    ensures Commutes(hash, leaves)
  {
    PairAt(leaves, 0);
    assert leaves == [leaves[0]] + [leaves[1]];
    TreeOfHalves(hash, [leaves[0]], [leaves[1]]);
  }

  lemma HalvesFromBelow(hash: Hash, a: seq<Bytes>, b: seq<Bytes>)
    requires |a| == |b| > 0 && |a| % 2 == 0
    requires Commutes(hash, a) && Commutes(hash, b)
    ensures Commutes(hash, a + b)
  {
    AboveOfHalves(hash, a, b);
    TreeOfHalves(hash, a, b);
    TreeOfHalves(hash, Above(hash, a), Above(hash, b));
  }

  lemma Split(leaves: seq<Bytes>, height: nat) returns (a: seq<Bytes>, b: seq<Bytes>)
    requires height > 0 && |leaves| == 2 * Width(height)
    ensures leaves == a + b && |a| == |b| == 2 * Width(height - 1) > 0
  {
    a, b := leaves[..Width(height)], leaves[Width(height)..];
  }

  /** Hashing the lowest level first gives the same tree. */
  lemma {:induction false} TreeFromBelow(hash: Hash, leaves: seq<Bytes>, height: nat)
    requires |leaves| == 2 * Width(height)
    ensures Commutes(hash, leaves)
    decreases height
  {
    if height == 0 {
      AboveOfPair(hash, leaves);
    } else {
      var a, b := Split(leaves, height);
      TreeFromBelow(hash, a, height - 1);
      TreeFromBelow(hash, b, height - 1);
      HalvesFromBelow(hash, a, b);
    }
  }

  ghost predicate IsTree(hash: Hash, leaves: seq<Bytes>) {
    leaves != [] && Root(hash, leaves) == Tree(hash, leaves)
  }

  lemma TreeOneUp(hash: Hash, leaves: seq<Bytes>)
    requires |leaves| > 1 && Commutes(hash, leaves) && IsTree(hash, Above(hash, leaves))
    ensures IsTree(hash, leaves)
  {
    assert Root(hash, leaves) == Root(hash, Above(hash, leaves));
  }

  lemma LeafIsTree(hash: Hash, leaves: seq<Bytes>)
    requires |leaves| == 1
    ensures IsTree(hash, leaves)
  {
  }

  lemma HalfAsWide(hash: Hash, leaves: seq<Bytes>, width: nat)
    requires |leaves| == 2 * width > 0
    ensures |leaves| > 1 && |Above(hash, leaves)| == width
  {
  }

  lemma {:induction false} RootIsTree(hash: Hash, leaves: seq<Bytes>, height: nat)
    requires |leaves| == Width(height)
    ensures IsTree(hash, leaves)
    decreases height
  {
    if height == 0 {
      LeafIsTree(hash, leaves);
    } else {
      HalfAsWide(hash, leaves, Width(height - 1));
      TreeFromBelow(hash, leaves, height - 1);
      RootIsTree(hash, Above(hash, leaves), height - 1);
      TreeOneUp(hash, leaves);
    }
  }

  /** The root of any list: the balanced tree over its padding, which repeats the last node of every odd level. */
  lemma RootIsTreeOfPadding(hash: Hash, nodes: seq<Bytes>)
    requires nodes != []
    ensures |Padded(nodes)| == Width(Height(|nodes|)) && Root(hash, nodes) == Tree(hash, Padded(nodes))
  {
    PaddedWidth(|nodes|);
    RootOfPadded(hash, nodes);
    RootIsTree(hash, Padded(nodes), Height(|nodes|));
  }
}
