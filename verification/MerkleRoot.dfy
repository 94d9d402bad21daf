/**
 The Merkle root of pkg/audit/integrity.go, over an arbitrary 32-byte hash. No hash is free of
 collisions on all inputs, so the binding theorem asks only that it has none among the finitely
 many payloads hashed while computing the two roots.
 */
module MerkleRoot {

  newtype byte = x: int | 0 <= x < 256
  type Bytes = seq<byte>
  type Hash = Bytes -> Bytes

  const DIGEST_SIZE := 32

  ghost predicate IsHash(hash: Hash) {
    forall payload :: |hash(payload)| == DIGEST_SIZE
  }

  ghost predicate NoCollision(hash: Hash, payloads: set<Bytes>) {
    forall x, y :: x in payloads && y in payloads && hash(x) == hash(y) ==> x == y
  }

  // ---- The tree ----------------------------------------------------------------------------

  /** merkleRight: an odd level repeats its final node. */
  function Right(nodes: seq<Bytes>, index: nat): Bytes
    requires index < |nodes|
  {
    if index + 1 < |nodes| then nodes[index + 1] else nodes[index]
  }

  function Payload(left: Bytes, right: Bytes): Bytes {
    [1] + left + right
  }

  /** The payloads hashed to form the level above `nodes`. */
  function Pairs(nodes: seq<Bytes>): (pairs: seq<Bytes>)
    ensures |pairs| == (|nodes| + 1) / 2
  {
    seq((|nodes| + 1) / 2, i requires 0 <= i < (|nodes| + 1) / 2 => Payload(nodes[2 * i], Right(nodes, 2 * i)))
  }

  function Hashed(hash: Hash, payloads: seq<Bytes>): (digests: seq<Bytes>)
    ensures |digests| == |payloads|
  {
    seq(|payloads|, i requires 0 <= i < |payloads| => hash(payloads[i]))
  }

  function Root(hash: Hash, nodes: seq<Bytes>): Bytes
    requires nodes != []
    decreases |nodes|
  {
    if |nodes| == 1 then nodes[0] else Root(hash, Hashed(hash, Pairs(nodes)))
  }

  ghost function AsSet(payloads: seq<Bytes>): set<Bytes> {
    set p | p in payloads
  }

  /** Every payload hashed on the way from `nodes` to the root. */
  ghost function TreePayloads(hash: Hash, nodes: seq<Bytes>): set<Bytes>
    requires nodes != []
    decreases |nodes|
  {
    if |nodes| == 1 then {} else AsSet(Pairs(nodes)) + TreePayloads(hash, Hashed(hash, Pairs(nodes)))
  }

  // ---- Binding -----------------------------------------------------------------------------

  ghost predicate Sized(nodes: seq<Bytes>) {
    forall i :: 0 <= i < |nodes| ==> |nodes[i]| == DIGEST_SIZE
  }

  lemma HashedBinds(hash: Hash, a: seq<Bytes>, b: seq<Bytes>)
    requires Hashed(hash, a) == Hashed(hash, b) && NoCollision(hash, AsSet(a) + AsSet(b))
    ensures a == b
  {
    assert |Hashed(hash, a)| == |a| && |Hashed(hash, b)| == |b|;
    forall i | 0 <= i < |a|
      ensures a[i] == b[i]
    {
      assert Hashed(hash, a)[i] == hash(a[i]) && Hashed(hash, b)[i] == hash(b[i]);
      assert a[i] in AsSet(a) && b[i] in AsSet(b);
    }
  }

  lemma PayloadBinds(left: Bytes, right: Bytes, left': Bytes, right': Bytes)
    requires |left| == |left'| && Payload(left, right) == Payload(left', right')
    ensures left == left' && right == right'
  {
    assert Payload(left, right)[1..][..|left|] == left && Payload(left, right)[1..][|left|..] == right;
    assert Payload(left', right')[1..][..|left'|] == left' && Payload(left', right')[1..][|left'|..] == right';
  }

  lemma PairsBind(a: seq<Bytes>, b: seq<Bytes>)
    requires |a| == |b| && Sized(a) && Sized(b) && Pairs(a) == Pairs(b)
    ensures a == b
  {
    forall i | 0 <= i < |a|
      ensures a[i] == b[i]
    {
      var k := i / 2;
      assert Pairs(a)[k] == Payload(a[2 * k], Right(a, 2 * k)) && Pairs(b)[k] == Payload(b[2 * k], Right(b, 2 * k));
      PayloadBinds(a[2 * k], Right(a, 2 * k), b[2 * k], Right(b, 2 * k));
    }
  }

  lemma {:induction false} RootBinds(hash: Hash, a: seq<Bytes>, b: seq<Bytes>)
    requires IsHash(hash) && a != [] && |a| == |b| && Sized(a) && Sized(b)
    requires Root(hash, a) == Root(hash, b)
    requires NoCollision(hash, TreePayloads(hash, a) + TreePayloads(hash, b))
    ensures a == b
    decreases |a|
  {
    if |a| > 1 {
      RootBinds(hash, Hashed(hash, Pairs(a)), Hashed(hash, Pairs(b)));
      HashedBinds(hash, Pairs(a), Pairs(b));
      PairsBind(a, b);
    }
  }

  ghost function Payloads(hash: Hash, encoded: seq<Bytes>): set<Bytes>
    requires encoded != []
  {
    AsSet(encoded) + TreePayloads(hash, Hashed(hash, encoded))
  }

  /** Equally long record lists with the same root have the same canonical records, in the same order. */
  lemma RecordsAreBound(hash: Hash, a: seq<Bytes>, b: seq<Bytes>)
    requires IsHash(hash) && a != [] && |a| == |b|
    requires Root(hash, Hashed(hash, a)) == Root(hash, Hashed(hash, b))
    requires NoCollision(hash, Payloads(hash, a) + Payloads(hash, b))
    ensures a == b
  {
    RootBinds(hash, Hashed(hash, a), Hashed(hash, b));
    HashedBinds(hash, a, b);
  }

  /**
   Equal length is needed: repeating the last record of any odd list of three or more leaves the root
   unchanged, whatever the hash.
   */
  lemma RepeatedTailCollides(hash: Hash, records: seq<Bytes>)
    requires |records| % 2 == 1 && |records| > 1
    ensures Root(hash, Hashed(hash, records)) == Root(hash, Hashed(hash, records + [records[|records| - 1]]))
  {
    var last := records[|records| - 1];
    var nodes, longer := Hashed(hash, records), Hashed(hash, records + [last]);
    assert longer == nodes + [hash(last)];
    assert nodes[|nodes| - 1] == hash(last);
    assert Pairs(nodes) == Pairs(longer);
  }

  // ---- The code ----------------------------------------------------------------------------

  datatype Record = Record(id: string, canonical: Bytes)
  datatype Result<+T> = Ok(value: T) | EmptyList | InvalidRecord

  function Canonicals(records: seq<Record>): (c: seq<Bytes>)
    ensures |c| == |records|
  {
    seq(|records|, i requires 0 <= i < |records| => records[i].canonical)
  }

  /** merkleLevel */
  method MerkleLevel(hash: Hash, nodes: seq<Bytes>) returns (root: Bytes)
    requires nodes != []
    ensures root == Root(hash, nodes)
    decreases |nodes|
  {
    if |nodes| == 1 {
      return nodes[0];
    }
    var next: seq<Bytes> := [];
    ghost var above := Hashed(hash, Pairs(nodes));
    var index := 0;
    while index < |nodes|
      invariant index == 2 * |next| && |next| <= |above|
      invariant forall k :: 0 <= k < |next| ==> next[k] == above[k]
    {
      var right := if index + 1 < |nodes| then nodes[index + 1] else nodes[index];
      var payload := [1] + nodes[index] + right;
      assert Pairs(nodes)[|next|] == payload;
      next := next + [hash(payload)];
      index := index + 2;
    }
    assert next == above;
    root := MerkleLevel(hash, next);
  }

  /** MerkleRoot: rejects an empty list and any record without an identity. */
  method Compute(hash: Hash, records: seq<Record>) returns (result: Result<Bytes>)
    ensures result.EmptyList? <==> records == []
    ensures result.InvalidRecord? <==> records != [] && exists i :: 0 <= i < |records| && records[i].id == ""
    ensures result.Ok? ==> records != [] && result.value == Root(hash, Hashed(hash, Canonicals(records)))
  {
    if records == [] {
      return EmptyList;
    }
    var nodes: seq<Bytes> := [];
    for i := 0 to |records|
      invariant nodes == Hashed(hash, Canonicals(records))[..i]
      invariant forall k :: 0 <= k < i ==> records[k].id != ""
    {
      if records[i].id == "" {
        return InvalidRecord;
      }
      nodes := nodes + [hash(records[i].canonical)];
    }
    assert nodes == Hashed(hash, Canonicals(records));
    var root := MerkleLevel(hash, nodes);
    return Ok(root);
  }
}
