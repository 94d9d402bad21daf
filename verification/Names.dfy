/** Names in the order of Go's string comparison, and sorting them. */
module Names {

  type Name = string

  predicate Less(a: Name, b: Name) {
    if b == [] then false
    else if a == [] then true
    else a[0] < b[0] || (a[0] == b[0] && Less(a[1..], b[1..]))
  }

  lemma {:induction false} LessIsTotal(a: Name, b: Name)
    ensures a == b || Less(a, b) || Less(b, a)
    ensures !(a == b && Less(a, b)) && !(Less(a, b) && Less(b, a))
  {
    if a != [] && b != [] {
      LessIsTotal(a[1..], b[1..]);
      if a[0] == b[0] && a[1..] == b[1..] {
        assert a == [a[0]] + a[1..] == b;
      }
    }
  }

  /** The two names agree up to place `k`, where the first one ends or has the smaller character. */
  predicate DiffersAt(a: Name, b: Name, k: nat) {
    k <= |a| && k < |b| && a[..k] == b[..k] && (k < |a| ==> a[k] < b[k])
  }

  /** One name comes before another if and only if it is the smaller where they first differ, or is cut short there. */
  lemma {:induction false} LessMeans(a: Name, b: Name)
    ensures Less(a, b) <==> exists k: nat :: DiffersAt(a, b, k)
  {
    if a == [] && b != [] {
      assert DiffersAt(a, b, 0);
    } else if a != [] && b != [] {
      LessMeans(a[1..], b[1..]);
      if Less(a, b) {
        LessHasPlace(a, b);
      }
      if k: nat :| DiffersAt(a, b, k) {
        PlaceInTail(a, b, k);
      }
    }
  }

  lemma LessHasPlace(a: Name, b: Name)
    requires a != [] && b != [] && Less(a, b)
    requires Less(a[1..], b[1..]) ==> exists k: nat :: DiffersAt(a[1..], b[1..], k)
    ensures exists k: nat :: DiffersAt(a, b, k)
  {
    if a[0] < b[0] {
      assert DiffersAt(a, b, 0);
    } else {
      var k: nat :| DiffersAt(a[1..], b[1..], k);
      PlaceFromTail(a, b, k);
    }
  }

  lemma PlaceFromTail(a: Name, b: Name, k: nat)
    requires a != [] && b != [] && a[0] == b[0] && DiffersAt(a[1..], b[1..], k)
    ensures DiffersAt(a, b, k + 1)
  {
    assert a[..k + 1] == [a[0]] + a[1..][..k] && b[..k + 1] == [b[0]] + b[1..][..k];
  }

  lemma PlaceInTail(a: Name, b: Name, k: nat)
    requires a != [] && b != [] && DiffersAt(a, b, k)
    ensures k == 0 ==> a[0] < b[0]
    ensures k > 0 ==> a[0] == b[0] && DiffersAt(a[1..], b[1..], k - 1)
  {
    if k > 0 {
      assert a[0] == a[..k][0] && b[0] == b[..k][0];
      assert a[1..][..k - 1] == a[..k][1..] && b[1..][..k - 1] == b[..k][1..];
    }
  }

  lemma {:induction false} LessIsTransitive(a: Name, b: Name, c: Name)
    requires Less(a, b) && Less(b, c)
    ensures Less(a, c)
  {
    if a != [] && a[0] == b[0] && b[0] == c[0] {
      LessIsTransitive(a[1..], b[1..], c[1..]);
    }
  }

  ghost predicate Sorted(names: seq<Name>) {
    forall i, j :: 0 <= i < j < |names| ==> !Less(names[j], names[i])
  }

  /** Inserts into a sorted sequence; sort.Strings after appending one name. */
  method Insert(names: seq<Name>, x: Name) returns (r: seq<Name>)
    requires Sorted(names)
    ensures Sorted(r) && multiset(r) == multiset(names) + multiset{x}
  {
    var i := 0;
    while i < |names| && !Less(x, names[i])
      invariant i <= |names|
      invariant forall k :: 0 <= k < i ==> !Less(x, names[k])
    {
      i := i + 1;
    }
    r := names[..i] + [x] + names[i..];
    assert names == names[..i] + names[i..];
    InsertKeepsSorted(names, i, x);
  }

  lemma InsertKeepsSorted(names: seq<Name>, i: nat, x: Name)
    requires Sorted(names) && i <= |names|
    requires forall k :: 0 <= k < i ==> !Less(x, names[k])
    requires i < |names| ==> Less(x, names[i])
    ensures Sorted(names[..i] + [x] + names[i..])
  {
    forall k | i <= k < |names|
      ensures !Less(names[k], x)
    {
      LessIsTotal(x, names[k]);
      if Less(names[k], x) && k > i {
        LessIsTransitive(names[k], x, names[i]);
      }
    }
  }

  /** sort.Strings */
  method Sort(names: seq<Name>) returns (r: seq<Name>)
    ensures Sorted(r) && multiset(r) == multiset(names)
  {
    r := [];
    for i := 0 to |names|
      invariant Sorted(r) && multiset(r) == multiset(names[..i])
    {
      assert names[..i + 1] == names[..i] + [names[i]];
      r := Insert(r, names[i]);
    }
    assert names[..|names|] == names;
  }
}
