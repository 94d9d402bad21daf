/** Which record lists share a Merkle root: exactly those that odd levels pad to the same list. */
module MerklePadding {
  import opened MerkleRoot

  function ChildOf(parent: nat, side: nat, n: nat): nat
    requires n > 0
  {
    if 2 * parent + side < n then 2 * parent + side else n - 1
  }

  /** The two children of every place in `above`, in a level of `n` nodes. */
  function Children(above: seq<nat>, n: nat): (places: seq<nat>)
    requires n > 0
    ensures |places| == 2 * |above|
    ensures forall i :: 0 <= i < |places| ==> places[i] < n
  {
    if above == [] then []
    else Children(above[..|above| - 1], n) + [ChildOf(above[|above| - 1], 0, n), ChildOf(above[|above| - 1], 1, n)]
  }

  lemma {:induction false} ChildrenAt(above: seq<nat>, n: nat, i: nat)
    requires n > 0 && i < |above|
    ensures Children(above, n)[2 * i] == ChildOf(above[i], 0, n)
    ensures Children(above, n)[2 * i + 1] == ChildOf(above[i], 1, n)
    decreases |above|
  {
    if i < |above| - 1 {
      ChildrenAt(above[..|above| - 1], n, i);
    }
  }

  /** The places of a list of `n` nodes, as repeating the last node of every odd level spreads them out. */
  function PadIndex(n: nat): (places: seq<nat>)
    requires n > 0
    ensures |places| >= 1 && forall i :: 0 <= i < |places| ==> places[i] < n
  {
    if n == 1 then [0] else Children(PadIndex((n + 1) / 2), n)
  }

  function Select(nodes: seq<Bytes>, places: seq<nat>): (r: seq<Bytes>)
    requires forall i :: 0 <= i < |places| ==> places[i] < |nodes|
    ensures |r| == |places| && forall i :: 0 <= i < |places| ==> r[i] == nodes[places[i]]
  {
    seq(|places|, i requires 0 <= i < |places| => nodes[places[i]])
  }

  function Padded(nodes: seq<Bytes>): (r: seq<Bytes>)
    requires nodes != []
    ensures |r| == |PadIndex(|nodes|)|
  {
    Select(nodes, PadIndex(|nodes|))
  }

  function Above(hash: Hash, nodes: seq<Bytes>): (r: seq<Bytes>)
    requires nodes != []
    ensures |r| == (|nodes| + 1) / 2
  {
    Hashed(hash, Pairs(nodes))
  }

  lemma PairAt(nodes: seq<Bytes>, i: nat)
    requires i < (|nodes| + 1) / 2
    ensures Pairs(nodes)[i] == Payload(nodes[2 * i], Right(nodes, 2 * i))
  {
  }

  lemma {:induction false} PairOfPlaces(nodes: seq<Bytes>, spread: seq<Bytes>, i: nat, p: nat)
    requires 2 * i + 1 < |spread| && 2 * p < |nodes|
    requires spread[2 * i] == nodes[2 * p] && spread[2 * i + 1] == Right(nodes, 2 * p)
    ensures Pairs(spread)[i] == Pairs(nodes)[p]
  {
    PairAt(spread, i);
    PairAt(nodes, p);
  }

  lemma {:induction false} PairOfChildren(nodes: seq<Bytes>, above: seq<nat>, i: nat)
    requires nodes != [] && i < |above| && above[i] < (|nodes| + 1) / 2
    ensures Pairs(Select(nodes, Children(above, |nodes|)))[i] == Pairs(nodes)[above[i]]
  {
    ChildrenAt(above, |nodes|, i);
    PairOfPlaces(nodes, Select(nodes, Children(above, |nodes|)), i, above[i]);
  }

  lemma {:induction false} PairsOfChildren(nodes: seq<Bytes>, above: seq<nat>)
    requires nodes != [] && forall i :: 0 <= i < |above| ==> above[i] < (|nodes| + 1) / 2
    ensures Pairs(Select(nodes, Children(above, |nodes|))) == Select(Pairs(nodes), above)
  {
    var pairs := Pairs(Select(nodes, Children(above, |nodes|)));
    assert |pairs| == |above|;
    forall i | 0 <= i < |above|
      ensures pairs[i] == Pairs(nodes)[above[i]]
    {
      PairOfChildren(nodes, above, i);
    }
  }

  lemma {:induction false} SelectHashed(hash: Hash, payloads: seq<Bytes>, places: seq<nat>)
    requires forall i :: 0 <= i < |places| ==> places[i] < |payloads|
    ensures Hashed(hash, Select(payloads, places)) == Select(Hashed(hash, payloads), places)
    ensures AsSet(Select(payloads, places)) <= AsSet(payloads)
  {
  }

  /** Spreading the nodes out commutes with going up one level. */
  lemma {:induction false} AboveOfChildren(hash: Hash, nodes: seq<Bytes>, above: seq<nat>)
    requires nodes != [] && above != [] && forall i :: 0 <= i < |above| ==> above[i] < (|nodes| + 1) / 2
    ensures Above(hash, Select(nodes, Children(above, |nodes|))) == Select(Above(hash, nodes), above)
    ensures AsSet(Pairs(Select(nodes, Children(above, |nodes|)))) <= AsSet(Pairs(nodes))
  {
    PairsOfChildren(nodes, above);
    SelectHashed(hash, Pairs(nodes), above);
  }

  /** Padding changes neither the root nor what is hashed for it. */
  lemma {:induction false} RootOfPadded(hash: Hash, nodes: seq<Bytes>)
    requires nodes != []
    ensures Root(hash, Padded(nodes)) == Root(hash, nodes)
    ensures TreePayloads(hash, Padded(nodes)) <= TreePayloads(hash, nodes)
    decreases |nodes|
  {
    if |nodes| == 1 {
      assert Padded(nodes) == nodes;
    } else {
      AboveOfChildren(hash, nodes, PadIndex((|nodes| + 1) / 2));
      RootOfPadded(hash, Above(hash, nodes));
    }
  }

  lemma {:induction false} PadIndexKeeps(n: nat, i: nat)
    requires i < n
    ensures i < |PadIndex(n)| && PadIndex(n)[i] == i
    decreases n
  {
    if n > 1 {
      PadIndexKeeps((n + 1) / 2, i / 2);
      ChildrenAt(PadIndex((n + 1) / 2), n, i / 2);
    }
  }

  /** Padding only adds: the list itself comes first, in order. */
  lemma PaddingKeepsList(nodes: seq<Bytes>)
    requires nodes != []
    ensures nodes <= Padded(nodes)
  {
    PadIndexKeeps(|nodes|, |nodes| - 1);
    forall i | 0 <= i < |nodes|
      ensures i < |Padded(nodes)| && Padded(nodes)[i] == nodes[i]
    {
      PadIndexKeeps(|nodes|, i);
    }
  }

  // ---- Lists of different widths -----------------------------------------------------------

  ghost function Width(height: nat): (w: nat)
    ensures w > 0
  {
    if height == 0 then 1 else 2 * Width(height - 1)
  }

  ghost function Height(n: nat): nat
    requires n > 0
  {
    if n == 1 then 0 else 1 + Height((n + 1) / 2)
  }

  lemma {:induction false} PaddedWidth(n: nat)
    requires n > 0
    ensures |PadIndex(n)| == Width(Height(n))
  {
    if n > 1 {
      PaddedWidth((n + 1) / 2);
    }
  }

  /** The shape of what is hashed for a pair of nodes. */
  ghost predicate IsInner(payload: Bytes) {
    payload != [] && payload[0] == 1
  }

  lemma AboveIsSized(hash: Hash, nodes: seq<Bytes>)
    requires IsHash(hash) && nodes != []
    ensures Sized(Above(hash, nodes))
  {
    forall i | 0 <= i < |Above(hash, nodes)|
      ensures |Above(hash, nodes)[i]| == DIGEST_SIZE
    {
      assert Above(hash, nodes)[i] == hash(Pairs(nodes)[i]);
    }
  }

  lemma OneUp(hash: Hash, nodes: seq<Bytes>)
    requires IsHash(hash) && |nodes| > 1
    ensures Sized(Above(hash, nodes)) && Root(hash, nodes) == Root(hash, Above(hash, nodes))
    ensures TreePayloads(hash, nodes) == AsSet(Pairs(nodes)) + TreePayloads(hash, Above(hash, nodes))
  {
    AboveIsSized(hash, nodes);
  }

  lemma FirstPair(hash: Hash, nodes: seq<Bytes>)
    requires |nodes| > 1
    ensures Above(hash, nodes)[0] == hash(Pairs(nodes)[0])
    ensures Pairs(nodes)[0] in AsSet(Pairs(nodes)) && IsInner(Pairs(nodes)[0])
  {
    PairAt(nodes, 0);
  }

  /** Two trees with one root, among payloads that do not collide. */
  ghost predicate Agree(hash: Hash, known: set<Bytes>, a: seq<Bytes>, b: seq<Bytes>) {
    && a != [] && b != [] && Sized(a) && Root(hash, a) == Root(hash, b) && NoCollision(hash, known)
    && TreePayloads(hash, a) <= known && TreePayloads(hash, b) <= known
  }

  lemma {:induction false} TwiceAsWide(hash: Hash, known: set<Bytes>, a: seq<Bytes>, b: seq<Bytes>)
    returns (payload: Bytes)
    requires IsHash(hash) && Agree(hash, known, a, b) && |b| == 2 * |a|
    ensures payload in known && IsInner(payload) && hash(payload) == a[0]
  {
    OneUp(hash, b);
    RootBinds(hash, a, Above(hash, b));
    FirstPair(hash, b);
    payload := Pairs(b)[0];
  }

  lemma {:induction false} AgreeUp(hash: Hash, known: set<Bytes>, a: seq<Bytes>, b: seq<Bytes>, w: nat)
    requires IsHash(hash) && Agree(hash, known, a, b) && w > 0 && |b| == 2 * w
    ensures |Above(hash, b)| == w && Agree(hash, known, a, Above(hash, b))
  {
    OneUp(hash, b);
  }

  /** Whatever going up one level keeps is reached at every smaller width. */
  lemma {:induction false} Climb(up: seq<Bytes> -> seq<Bytes>, keeps: iset<seq<Bytes>>, b: seq<Bytes>, g: nat, h: nat)
    returns (level: seq<Bytes>)
    requires b in keeps && |b| == Width(h) && g < h
    requires forall x :: x in keeps && |x| > 0 && |x| % 2 == 0 ==> up(x) in keeps && |x| == 2 * |up(x)|
    ensures level in keeps && |level| == 2 * Width(g)
    decreases h
  {
    assert |b| == 2 * Width(h - 1);
    if g + 1 == h {
      level := b;
    } else {
      level := Climb(up, keeps, up(b), g, h - 1);
    }
  }

  /** A wider tree with the same root has an inner node in the place of a leaf of the narrower one. */
  lemma {:induction false} WiderHasInner(hash: Hash, known: set<Bytes>, a: seq<Bytes>, b: seq<Bytes>, g: nat, h: nat)
    returns (payload: Bytes)
    requires IsHash(hash) && Agree(hash, known, a, b) && |a| == Width(g) && |b| == Width(h) && g < h
    ensures payload in known && IsInner(payload) && hash(payload) == a[0]
  {
    var keeps := iset x | Agree(hash, known, a, x);
    var up := (x: seq<Bytes>) => if x == [] then [] else Above(hash, x);
    forall x | x in keeps && |x| > 0 && |x| % 2 == 0
      ensures up(x) in keeps && |x| == 2 * |up(x)|
    {
      AgreeUp(hash, known, a, x, |x| / 2);
    }
    var level := Climb(up, keeps, b, g, h);
    payload := TwiceAsWide(hash, known, a, level);
  }

  // ---- Records -----------------------------------------------------------------------------

  lemma HashedIsSized(hash: Hash, records: seq<Bytes>)
    requires IsHash(hash)
    ensures Sized(Hashed(hash, records))
  {
    forall i | 0 <= i < |records|
      ensures |Hashed(hash, records)[i]| == DIGEST_SIZE
    {
      assert Hashed(hash, records)[i] == hash(records[i]);
    }
  }

  ghost function RecordRoot(hash: Hash, records: seq<Bytes>): Bytes
    requires records != []
  {
    Root(hash, Hashed(hash, records))
  }

  lemma PaddedRecords(hash: Hash, records: seq<Bytes>)
    requires IsHash(hash) && records != []
    ensures Padded(records) != [] && |Padded(records)| == Width(Height(|records|))
    ensures Sized(Hashed(hash, Padded(records)))
    ensures RecordRoot(hash, Padded(records)) == RecordRoot(hash, records)
    ensures Payloads(hash, Padded(records)) <= Payloads(hash, records)
  {
    SelectHashed(hash, records, PadIndex(|records|));
    RootOfPadded(hash, Hashed(hash, records));
    HashedIsSized(hash, Padded(records));
    PaddedWidth(|records|);
  }

  ghost predicate NoneInner(records: seq<Bytes>) {
    forall i :: 0 <= i < |records| ==> !IsInner(records[i])
  }

  /** Two padded lists of different widths never share a root. */
  lemma WidthsDiffer(hash: Hash, a: seq<Bytes>, b: seq<Bytes>, g: nat, h: nat)
    requires IsHash(hash) && |a| == Width(g) && |b| == Width(h) && g < h && NoneInner(a)
    requires NoCollision(hash, Payloads(hash, a) + Payloads(hash, b))
    ensures RecordRoot(hash, a) != RecordRoot(hash, b)
  {
    HashedIsSized(hash, a);
    HashedIsSized(hash, b);
    assert a[0] in AsSet(a) && Hashed(hash, a)[0] == hash(a[0]);
    if RecordRoot(hash, a) == RecordRoot(hash, b) {
      var payload := WiderHasInner(hash, Payloads(hash, a) + Payloads(hash, b), Hashed(hash, a), Hashed(hash, b), g, h);
    }
  }

  lemma NoneInnerPadded(records: seq<Bytes>)
    requires records != [] && NoneInner(records)
    ensures NoneInner(Padded(records))
  {
    assert forall i :: 0 <= i < |Padded(records)| ==> Padded(records)[i] == records[PadIndex(|records|)[i]];
  }

  lemma PaddedBind(hash: Hash, a: seq<Bytes>, b: seq<Bytes>, g: nat, h: nat)
    requires IsHash(hash) && |a| == Width(g) && |b| == Width(h) && NoneInner(a) && NoneInner(b)
    requires NoCollision(hash, Payloads(hash, a) + Payloads(hash, b)) && RecordRoot(hash, a) == RecordRoot(hash, b)
    ensures a == b
  {
    if g == h {
      RecordsAreBound(hash, a, b);
    } else if g < h {
      WidthsDiffer(hash, a, b, g, h);
    } else {
      WidthsDiffer(hash, b, a, h, g);
    }
  }

  /**
   Two record lists of any lengths share a root if and only if they pad to the same list. No record's encoding may look
   like a pair of nodes, which starts with the byte 1; canonical JSON starts with a brace.
   */
  lemma SameRootIffSamePadding(hash: Hash, a: seq<Bytes>, b: seq<Bytes>)
    requires IsHash(hash) && a != [] && b != [] && NoneInner(a) && NoneInner(b)
    requires NoCollision(hash, Payloads(hash, a) + Payloads(hash, b))
    ensures RecordRoot(hash, a) == RecordRoot(hash, b) <==> Padded(a) == Padded(b)
  {
    PaddedRecords(hash, a);
    PaddedRecords(hash, b);
    NoneInnerPadded(a);
    NoneInnerPadded(b);
    if RecordRoot(hash, a) == RecordRoot(hash, b) {
      PaddedBind(hash, Padded(a), Padded(b), Height(|a|), Height(|b|));
    }
  }
}
