/**
 The digest chain of pkg/audit/integrity.go: sealing, verification of a range, and checkpoints. The
 canonical encoding, the digest and the key provider are parameters; sequence numbers are 64-bit.
 */
module AuditChain {
  import opened Collections
  import opened M = MerkleRoot

  datatype Algorithm = Sha256 | HmacSha256

  datatype Integrity = Integrity(algorithm: Algorithm, partition: string, keyId: string, sequence: nat,
                                 previous: Bytes, digest: Bytes)

  datatype Entry = Entry(id: string, recordedAt: int, body: Bytes, integrity: Integrity)

  datatype Key = Key(id: string, bytes: Bytes)

  /** A key request answers None when the provider fails or its key is out of bounds. */
  datatype Chain = Chain(
    algorithm: Algorithm,
    keys: (string, string, int) -> Option<Key>,
    encode: Entry -> Bytes,
    digest: (Bytes, Bytes) -> Bytes)

  datatype Checkpoint = Checkpoint(partition: string, sequence: nat, digest: Bytes)

  datatype Verdict = Valid | Invalid | KeyUnavailable | Cancelled

  const TWO_64 := 0x1_0000_0000_0000_0000
  const MAX_LENGTH := 0x7fff_ffff_ffff_ffff

  /** Addition on uint64. */
  function Add64(x: nat, n: nat): nat {
    (x + n) % TWO_64
  }

  // ---- Digests -----------------------------------------------------------------------------

  function Unsigned(e: Entry): Entry {
    e.(integrity := e.integrity.(digest := []))
  }

  /** The canonical bytes that a record's digest covers. */
  function Canonical(c: Chain, e: Entry): Bytes {
    c.encode(Unsigned(e))
  }

  function KeyFor(c: Chain, partition: string, keyId: string, recordedAt: int): Option<Key> {
    match c.algorithm
    case Sha256 => Some(Key("", []))
    case HmacSha256 => c.keys(partition, keyId, recordedAt)
  }

  // ---- Verification ------------------------------------------------------------------------

  /** The body of the loop of verifyRange for one record. */
  function Check(c: Chain, partition: string, sequence: nat, previous: Bytes, e: Entry): Verdict {
    var i := e.integrity;
    if i.algorithm != c.algorithm || i.partition != partition then Invalid
    else if i.sequence != sequence || i.previous != previous then Invalid
    else
      match KeyFor(c, partition, i.keyId, e.recordedAt)
      case None => KeyUnavailable
      case Some(key) =>
        if i.keyId != key.id then Invalid
        else if c.digest(key.bytes, Canonical(c, e)) != i.digest then Invalid
        else Valid
  }

  function Links(c: Chain, partition: string, start: nat, previous: Bytes, records: seq<Entry>): Verdict
    decreases |records|
  {
    if records == [] then Valid
    else
      match Check(c, partition, Add64(start, 1), previous, records[0])
      case Valid => Links(c, partition, Add64(start, 1), records[0].integrity.digest, records[1..])
      case verdict => verdict
  }

  function LastDigest(previous: Bytes, records: seq<Entry>): Bytes {
    if records == [] then previous else records[|records| - 1].integrity.digest
  }

  function RangeVerdict(c: Chain, partition: string, start: nat, previous: Bytes, records: seq<Entry>,
                        final: Option<Checkpoint>): Verdict {
    match Links(c, partition, start, previous, records)
    case Valid =>
      if && final.Some?
         && (|| final.value.sequence != Add64(start, |records|)
             || final.value.digest != LastDigest(previous, records))
      then Invalid else Valid
    case verdict => verdict
  }

  /** VerifyFromCheckpoint */
  function VerifyBetween(c: Chain, previous: Checkpoint, records: seq<Entry>, final: Checkpoint): Verdict {
    if previous.partition == "" || final.partition != previous.partition then Invalid
    else if final.sequence < previous.sequence then Invalid
    else RangeVerdict(c, previous.partition, previous.sequence, previous.digest, records, Some(final))
  }

  /** verifyRange, with a context that the check before record `cancelledAt` finds cancelled. */
  method VerifyRange(c: Chain, partition: string, start: nat, previous: Bytes, records: seq<Entry>,
                     final: Option<Checkpoint>, cancelledAt: nat)
    returns (verdict: Verdict)
    requires start < TWO_64
    ensures cancelledAt < |records| && Links(c, partition, start, previous, records[..cancelledAt]).Valid? ==>
              verdict == Cancelled
    ensures !(cancelledAt < |records| && Links(c, partition, start, previous, records[..cancelledAt]).Valid?) ==>
              verdict == RangeVerdict(c, partition, start, previous, records, final)
  {
    var last := previous;
    for index := 0 to |records|
      invariant index <= cancelledAt
      invariant last == LastDigest(previous, records[..index])
      invariant Links(c, partition, start, previous, records[..index]).Valid?
      invariant Links(c, partition, start, previous, records) ==
                Links(c, partition, Add64(start, index), last, records[index..])
    {
      if index == cancelledAt {
        return Cancelled;
      }
      var record := records[index];
      assert records[index..][0] == record && records[index..][1..] == records[index + 1..];
      Add64Step(start, index);
      FailedPrefix(c, partition, start, previous, records, index, cancelledAt);
      var i := record.integrity;
      if || i.algorithm != c.algorithm || i.partition != partition
         || i.sequence != Add64(start, index + 1) || i.previous != last {
        return Invalid;
      }
      var key := KeyFor(c, partition, i.keyId, record.recordedAt);
      if key.None? {
        return KeyUnavailable;
      }
      if i.keyId != key.value.id || c.digest(key.value.bytes, Canonical(c, record)) != i.digest {
        return Invalid;
      }
      last := i.digest;
      assert records[..index + 1][index] == record;
    }
    assert records[..|records|] == records && records[|records|..] == [];
    if final.Some? && (final.value.sequence != Add64(start, |records|) || final.value.digest != last) {
      return Invalid;
    }
    return Valid;
  }

  /** A record that fails its check fails every prefix that holds it. */
  lemma FailedPrefix(c: Chain, partition: string, start: nat, previous: Bytes, records: seq<Entry>, n: nat, m: nat)
    requires start < TWO_64 && n < |records| && Links(c, partition, start, previous, records[..n]).Valid?
    ensures var check := Check(c, partition, Add64(start, n + 1), LastDigest(previous, records[..n]), records[n]);
            && (check.Valid? <==> Links(c, partition, start, previous, records[..n + 1]).Valid?)
            && (!check.Valid? && n < m <= |records| ==> !Links(c, partition, start, previous, records[..m]).Valid?)
  {
    assert records[..n + 1] == records[..n] + [records[n]];
    LinksConcat(c, partition, start, previous, records[..n], [records[n]]);
    Add64Step(start, n);
    if n < m <= |records| {
      assert records[..m] == records[..n + 1] + records[n + 1..m];
      LinksConcat(c, partition, start, previous, records[..n + 1], records[n + 1..m]);
    }
  }

  lemma Add64Step(x: nat, n: nat)
    ensures Add64(Add64(x, n), 1) == Add64(x, n + 1)
  {
  }

  lemma Add64Add(x: nat, m: nat, n: nat)
    ensures Add64(Add64(x, m), n) == Add64(x, m + n)
  {
  }

  // ---- Concatenation -----------------------------------------------------------------------

  lemma {:induction false} LinksConcat(c: Chain, partition: string, start: nat, previous: Bytes, a: seq<Entry>,
                                       b: seq<Entry>)
    requires start < TWO_64
    ensures Links(c, partition, start, previous, a + b).Valid? <==>
            Links(c, partition, start, previous, a).Valid? &&
            Links(c, partition, Add64(start, |a|), LastDigest(previous, a), b).Valid?
    decreases |a|
  {
    if a == [] {
      assert a + b == b;
    } else {
      assert (a + b)[1..] == a[1..] + b;
      LinksConcat(c, partition, Add64(start, 1), a[0].integrity.digest, a[1..], b);
      Add64Add(start, 1, |a| - 1);
      assert LastDigest(a[0].integrity.digest, a[1..]) == LastDigest(previous, a);
    }
  }

  lemma NoWrap(x: nat, n: nat)
    requires x < TWO_64 && n <= MAX_LENGTH
    ensures Add64(x, n) >= x <==> Add64(x, n) == x + n
  {
  }

  /** Verifying a concatenation is verifying its parts through the checkpoint between them. */
  lemma VerificationComposes(c: Chain, previous: Checkpoint, a: seq<Entry>, b: seq<Entry>, final: Checkpoint)
    requires previous.sequence < TWO_64 && |a| + |b| <= MAX_LENGTH
    ensures var middle := Checkpoint(previous.partition, Add64(previous.sequence, |a|), LastDigest(previous.digest, a));
            VerifyBetween(c, previous, a + b, final).Valid? <==>
            VerifyBetween(c, previous, a, middle).Valid? && VerifyBetween(c, middle, b, final).Valid?
  {
    var s := previous.sequence;
    LinksConcat(c, previous.partition, s, previous.digest, a, b);
    Add64Add(s, |a|, |b|);
    NoWrap(s, |a| + |b|);
    NoWrap(s, |a|);
    NoWrap(Add64(s, |a|), |b|);
    assert LastDigest(previous.digest, a + b) == LastDigest(LastDigest(previous.digest, a), b);
  }

  // ---- What acceptance means ---------------------------------------------------------------

  /** The record says that it belongs here: in this chain, at this place, after this digest. */
  predicate Fits(c: Chain, partition: string, sequence: nat, previous: Bytes, e: Entry) {
    && e.integrity.algorithm == c.algorithm && e.integrity.partition == partition
    && e.integrity.sequence == sequence && e.integrity.previous == previous
  }

  /** Its digest is the one that its own key gives for its contents. */
  predicate IsSigned(c: Chain, partition: string, e: Entry) {
    var key := KeyFor(c, partition, e.integrity.keyId, e.recordedAt);
    key.Some? && key.value.id == e.integrity.keyId && c.digest(key.value.bytes, Canonical(c, e)) == e.integrity.digest
  }

  /** Record `i` fits its place and is signed. */
  predicate IsLinked(c: Chain, partition: string, start: nat, previous: Bytes, records: seq<Entry>, i: nat)
    requires i < |records|
  {
    && Fits(c, partition, Add64(start, i + 1), if i == 0 then previous else records[i - 1].integrity.digest, records[i])
    && IsSigned(c, partition, records[i])
  }

  ghost predicate AllLinked(c: Chain, partition: string, start: nat, previous: Bytes, records: seq<Entry>, n: nat)
    requires n <= |records|
  {
    forall i :: 0 <= i < n ==> IsLinked(c, partition, start, previous, records, i)
  }

  lemma LinkedNext(c: Chain, partition: string, start: nat, previous: Bytes, records: seq<Entry>, i: nat)
    requires 0 < i < |records|
    ensures IsLinked(c, partition, start, previous, records, i) <==>
            IsLinked(c, partition, Add64(start, 1), records[0].integrity.digest, records[1..], i - 1)
  {
    Add64Add(start, 1, i);
  }

  /**
   The verdict on a range: valid if and only if every record fits and is signed; otherwise the first that does not
   decides, and it is a missing key exactly when that record fits its place and no key is to be had for it.
   */
  lemma {:induction false} LinksMean(c: Chain, partition: string, start: nat, previous: Bytes, records: seq<Entry>,
                                     k: nat)
    requires k <= |records| && AllLinked(c, partition, start, previous, records, k)
    requires k < |records| ==> !IsLinked(c, partition, start, previous, records, k)
    ensures Links(c, partition, start, previous, records) ==
            if k == |records| then Valid
            else
              var before := if k == 0 then previous else records[k - 1].integrity.digest;
              if Fits(c, partition, Add64(start, k + 1), before, records[k]) &&
                 KeyFor(c, partition, records[k].integrity.keyId, records[k].recordedAt).None?
              then KeyUnavailable else Invalid
    decreases k
  {
    if k > 0 {
      assert IsLinked(c, partition, start, previous, records, 0);
      forall i | 0 <= i < |records| - 1
        ensures IsLinked(c, partition, Add64(start, 1), records[0].integrity.digest, records[1..], i) <==>
                IsLinked(c, partition, start, previous, records, i + 1)
      {
        LinkedNext(c, partition, start, previous, records, i + 1);
      }
      LinksMean(c, partition, Add64(start, 1), records[0].integrity.digest, records[1..], k - 1);
      Add64Add(start, 1, k);
    }
  }

  lemma {:induction false} FirstUnlinked(c: Chain, partition: string, start: nat, previous: Bytes, records: seq<Entry>,
                                         n: nat)
    returns (k: nat)
    requires n <= |records|
    ensures k <= n && AllLinked(c, partition, start, previous, records, k)
    ensures k < n ==> !IsLinked(c, partition, start, previous, records, k)
  {
    if n == 0 {
      k := 0;
    } else {
      k := FirstUnlinked(c, partition, start, previous, records, n - 1);
      if k == n - 1 && IsLinked(c, partition, start, previous, records, k) {
        k := n;
      }
    }
  }

  /**
   A range between two checkpoints is accepted if and only if the checkpoints are of one partition and as far apart as
   there are records, every record fits its place and is signed, and the last digest is that of the final checkpoint.
   */
  lemma AcceptanceMeans(c: Chain, previous: Checkpoint, records: seq<Entry>, final: Checkpoint)
    requires previous.sequence < TWO_64 && |records| <= MAX_LENGTH
    ensures VerifyBetween(c, previous, records, final).Valid? <==>
              && previous.partition != "" && final.partition == previous.partition
              && final.sequence == previous.sequence + |records| < TWO_64
              && final.digest == LastDigest(previous.digest, records)
              && AllLinked(c, previous.partition, previous.sequence, previous.digest, records, |records|)
  {
    var k := FirstUnlinked(c, previous.partition, previous.sequence, previous.digest, records, |records|);
    LinksMean(c, previous.partition, previous.sequence, previous.digest, records, k);
    NoWrap(previous.sequence, |records|);
  }

  /** A record is accepted in one place only: what is moved, repeated or taken from another partition is refused. */
  lemma RecordHasOnePlace(c: Chain, p: Checkpoint, a: seq<Entry>, i: nat, q: Checkpoint, b: seq<Entry>, j: nat,
                          f: Checkpoint, g: Checkpoint)
    requires p.sequence < TWO_64 && q.sequence < TWO_64 && |a| <= MAX_LENGTH && |b| <= MAX_LENGTH
    requires VerifyBetween(c, p, a, f).Valid? && VerifyBetween(c, q, b, g).Valid?
    requires i < |a| && j < |b| && a[i] == b[j]
    ensures p.partition == q.partition && p.sequence + i == q.sequence + j
  {
    AcceptanceMeans(c, p, a, f);
    AcceptanceMeans(c, q, b, g);
    assert IsLinked(c, p.partition, p.sequence, p.digest, a, i);
    assert IsLinked(c, q.partition, q.sequence, q.digest, b, j);
  }

  // ---- Binding -----------------------------------------------------------------------------

  /** Canonical bytes show the previous digest. */
  ghost predicate ShowsPrevious(c: Chain) {
    forall x: Entry, y: Entry :: Canonical(c, x) == Canonical(c, y) ==> x.integrity.previous == y.integrity.previous
  }

  /** One call of the digest: the key bytes and the encoding that it covers. */
  datatype Digested = Digested(key: Bytes, payload: Bytes)

  /** What verification digests for one record, if it gets a key. */
  ghost function DigestedBy(c: Chain, partition: string, e: Entry): Digested {
    var key := KeyFor(c, partition, e.integrity.keyId, e.recordedAt);
    Digested(if key.Some? then key.value.bytes else [], Canonical(c, e))
  }

  /** Everything that verifying a list digests. */
  ghost function AllDigested(c: Chain, partition: string, records: seq<Entry>): set<Digested> {
    set i | 0 <= i < |records| :: DigestedBy(c, partition, records[i])
  }

  /** Among the finitely many calls in `calls`, different encodings have different digests. */
  ghost predicate DigestBinds(c: Chain, calls: set<Digested>) {
    forall x, y :: x in calls && y in calls && c.digest(x.key, x.payload) == c.digest(y.key, y.payload) ==>
        x.payload == y.payload
  }

  ghost predicate SameCanonical(c: Chain, a: seq<Entry>, b: seq<Entry>) {
    |a| == |b| && forall i :: 0 <= i < |a| ==> Canonical(c, a[i]) == Canonical(c, b[i])
  }

  lemma LastLink(c: Chain, partition: string, start: nat, previous: Bytes, records: seq<Entry>)
    requires start < TWO_64 && records != [] && Links(c, partition, start, previous, records).Valid?
    ensures var n := |records| - 1;
            Links(c, partition, start, previous, records[..n]).Valid? &&
            Check(c, partition, Add64(start, n + 1), LastDigest(previous, records[..n]), records[n]).Valid?
  {
    var n := |records| - 1;
    assert records == records[..n] + [records[n]];
    LinksConcat(c, partition, start, previous, records[..n], [records[n]]);
    Add64Step(start, n);
  }

  /** Equal digests of two accepted records force equal contents, and with them equal predecessors. */
  lemma LastBinds(c: Chain, partition: string, sequence: nat, previous: Bytes, previous': Bytes, x: Entry, y: Entry,
                  calls: set<Digested>)
    requires Check(c, partition, sequence, previous, x).Valid? && Check(c, partition, sequence, previous', y).Valid?
    requires x.integrity.digest == y.integrity.digest && ShowsPrevious(c)
    requires DigestBinds(c, calls) && DigestedBy(c, partition, x) in calls && DigestedBy(c, partition, y) in calls
    ensures Canonical(c, x) == Canonical(c, y) && previous == previous'
  {
    var u, v := DigestedBy(c, partition, x), DigestedBy(c, partition, y);
    assert c.digest(u.key, u.payload) == x.integrity.digest && c.digest(v.key, v.payload) == y.integrity.digest;
  }

  ghost predicate Covers(c: Chain, partition: string, calls: set<Digested>, records: seq<Entry>) {
    forall i :: 0 <= i < |records| ==> DigestedBy(c, partition, records[i]) in calls
  }

  lemma ExtendSame(c: Chain, a: seq<Entry>, b: seq<Entry>, n: nat)
    requires |a| == |b| == n + 1 && SameCanonical(c, a[..n], b[..n]) && Canonical(c, a[n]) == Canonical(c, b[n])
    ensures SameCanonical(c, a, b)
  {
    forall i | 0 <= i < |a|
      ensures Canonical(c, a[i]) == Canonical(c, b[i])
    {
      assert i < n ==> a[..n][i] == a[i] && b[..n][i] == b[i];
    }
  }

  /** Two accepted lists that end in the same digest agree on their last record and on the digest before it. */
  lemma StepBack(c: Chain, partition: string, start: nat, previous: Bytes, a: seq<Entry>, b: seq<Entry>,
                 calls: set<Digested>)
    requires start < TWO_64 && |a| == |b| > 0 && ShowsPrevious(c)
    requires Links(c, partition, start, previous, a).Valid? && Links(c, partition, start, previous, b).Valid?
    requires LastDigest(previous, a) == LastDigest(previous, b)
    requires DigestBinds(c, calls) && Covers(c, partition, calls, a) && Covers(c, partition, calls, b)
    ensures var n := |a| - 1;
            && Canonical(c, a[n]) == Canonical(c, b[n])
            && LastDigest(previous, a[..n]) == LastDigest(previous, b[..n])
            && Links(c, partition, start, previous, a[..n]).Valid?
            && Links(c, partition, start, previous, b[..n]).Valid?
            && Covers(c, partition, calls, a[..n]) && Covers(c, partition, calls, b[..n])
  {
    var n := |a| - 1;
    LastLink(c, partition, start, previous, a);
    LastLink(c, partition, start, previous, b);
    LastBinds(c, partition, Add64(start, n + 1), LastDigest(previous, a[..n]), LastDigest(previous, b[..n]), a[n],
              b[n], calls);
  }

  lemma {:induction false} LinksBind(c: Chain, partition: string, start: nat, previous: Bytes, a: seq<Entry>,
                                     b: seq<Entry>, calls: set<Digested>)
    requires start < TWO_64 && |a| == |b| && ShowsPrevious(c)
    requires Links(c, partition, start, previous, a).Valid? && Links(c, partition, start, previous, b).Valid?
    requires LastDigest(previous, a) == LastDigest(previous, b)
    requires DigestBinds(c, calls) && Covers(c, partition, calls, a) && Covers(c, partition, calls, b)
    ensures SameCanonical(c, a, b)
    decreases |a|
  {
    if a != [] {
      var n := |a| - 1;
      StepBack(c, partition, start, previous, a, b, calls);
      LinksBind(c, partition, start, previous, a[..n], b[..n], calls);
      ExtendSame(c, a, b, n);
    }
  }

  /** Two record lists accepted between the same two checkpoints have the same canonical contents. */
  lemma CheckpointsBindRecords(c: Chain, previous: Checkpoint, a: seq<Entry>, b: seq<Entry>, final: Checkpoint)
    requires previous.sequence < TWO_64 && |a| <= MAX_LENGTH && |b| <= MAX_LENGTH
    requires VerifyBetween(c, previous, a, final).Valid? && VerifyBetween(c, previous, b, final).Valid?
    requires ShowsPrevious(c)
    requires DigestBinds(c, AllDigested(c, previous.partition, a) + AllDigested(c, previous.partition, b))
    ensures SameCanonical(c, a, b)
  {
    NoWrap(previous.sequence, |a|);
    NoWrap(previous.sequence, |b|);
    LinksBind(c, previous.partition, previous.sequence, previous.digest, a, b,
              AllDigested(c, previous.partition, a) + AllDigested(c, previous.partition, b));
  }

  // ---- Sealing -----------------------------------------------------------------------------

  datatype SealResult = Sealed(entry: Entry) | IncompleteLink | BadPrevious | NoKey

  const MAX_FIELD_BYTES := 1024

  /** Seal */
  function Seal(c: Chain, e: Entry, partition: string, sequence: nat, previous: Bytes): SealResult {
    if e.id == "" || sequence == 0 || partition == "" || |partition| > MAX_FIELD_BYTES then IncompleteLink
    else if sequence == 1 && previous != [] then BadPrevious
    else if sequence > 1 && |previous| != DIGEST_SIZE then BadPrevious
    else
      match KeyFor(c, partition, "", e.recordedAt)
      case None => NoKey
      case Some(key) =>
        var open := e.(integrity := Integrity(c.algorithm, partition, key.id, sequence, previous, []));
        Sealed(open.(integrity := open.integrity.(digest := c.digest(key.bytes, Canonical(c, open)))))
  }

  /** A persisted key identity keeps naming the key that was current when the record was sealed. */
  ghost predicate KeysAreStable(c: Chain) {
    forall partition, at {:trigger c.keys(partition, "", at)} :: c.keys(partition, "", at).Some? ==>
      var key := c.keys(partition, "", at).value; c.keys(partition, key.id, at) == Some(key)
  }

  /** Seals records one after the other, each on the digest of the one before. */
  function SealAll(c: Chain, records: seq<Entry>, partition: string, start: nat, previous: Bytes): Option<seq<Entry>> {
    if records == [] then Some([])
    else
      match Seal(c, records[0], partition, start + 1, previous)
      case Sealed(first) =>
        (match SealAll(c, records[1..], partition, start + 1, first.integrity.digest)
         case Some(rest) => Some([first] + rest)
         case None => None)
      case _ => None
  }

  /** Sealing changes nothing but the integrity part, and is refused only for what cannot be a link. */
  lemma SealKeepsRecord(c: Chain, e: Entry, partition: string, sequence: nat, previous: Bytes)
    ensures var r := Seal(c, e, partition, sequence, previous);
            && (r.Sealed? ==> r.entry.id == e.id && r.entry.recordedAt == e.recordedAt && r.entry.body == e.body)
            && (r.Sealed? || r.NoKey? <==>
                  && e.id != "" && 0 < |partition| <= MAX_FIELD_BYTES
                  && (if sequence == 1 then previous == [] else sequence > 1 && |previous| == DIGEST_SIZE))
            && (r.NoKey? ==> KeyFor(c, partition, "", e.recordedAt).None?)
            && (r.Sealed? ==> KeyFor(c, partition, "", e.recordedAt).Some?)
  {
  }

  lemma SealChecks(c: Chain, e: Entry, partition: string, sequence: nat, previous: Bytes)
    requires KeysAreStable(c) && Seal(c, e, partition, sequence, previous).Sealed?
    ensures Check(c, partition, sequence, previous, Seal(c, e, partition, sequence, previous).entry).Valid?
  {
    var sealed := Seal(c, e, partition, sequence, previous).entry;
    var key := KeyFor(c, partition, "", e.recordedAt).value;
    var bare := Integrity(c.algorithm, partition, key.id, sequence, previous, []);
    assert Unsigned(sealed) == Unsigned(e.(integrity := bare));
    assert KeyFor(c, partition, key.id, e.recordedAt) == Some(key);
  }

  lemma {:induction false} SealedLinks(c: Chain, records: seq<Entry>, partition: string, start: nat, previous: Bytes)
    requires KeysAreStable(c) && start + |records| < TWO_64
    requires SealAll(c, records, partition, start, previous).Some?
    ensures var sealed := SealAll(c, records, partition, start, previous).value;
            |sealed| == |records| && Links(c, partition, start, previous, sealed).Valid?
    decreases |records|
  {
    if records != [] {
      var first := Seal(c, records[0], partition, start + 1, previous).entry;
      SealChecks(c, records[0], partition, start + 1, previous);
      SealedLinks(c, records[1..], partition, start + 1, first.integrity.digest);
      var sealed := SealAll(c, records, partition, start, previous).value;
      assert sealed[1..] == SealAll(c, records[1..], partition, start + 1, first.integrity.digest).value;
    }
  }

  /** Whatever was sealed link by link verifies from the checkpoint before it to the checkpoint of its last record. */
  lemma SealedChainVerifies(c: Chain, records: seq<Entry>, before: Checkpoint)
    requires KeysAreStable(c) && before.sequence + |records| < TWO_64 && before.partition != ""
    requires SealAll(c, records, before.partition, before.sequence, before.digest).Some?
    ensures var sealed := SealAll(c, records, before.partition, before.sequence, before.digest).value;
            && |sealed| == |records|
            && VerifyBetween(c, before, sealed,
                             Checkpoint(before.partition, before.sequence + |records|,
                                        LastDigest(before.digest, sealed))).Valid?
  {
    SealedLinks(c, records, before.partition, before.sequence, before.digest);
  }
}
