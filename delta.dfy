/**
 * Delta computation (o365_ip.py, `generate_delta`): the addresses to add are
 * those of the new set missing from the previous snapshot, in the new set's
 * order; the addresses to remove are those of the snapshot missing from the
 * new set, in the snapshot's order.
 */
module Delta {

  /** The elements of `a` that are not in `b`, in the order of `a`. */
  function Minus(a: seq<string>, b: seq<string>): seq<string> {
    if a == [] then []
    else Minus(a[..|a| - 1], b) + (if a[|a| - 1] in b then [] else [a[|a| - 1]])
  }

  /** Exactly the elements of `a` absent from `b` are kept. */
  lemma {:induction false} MinusMembership(a: seq<string>, b: seq<string>, x: string)
    ensures x in Minus(a, b) <==> x in a && x !in b
  {
    if a != [] {
      MinusMembership(a[..|a| - 1], b, x);
      assert a == a[..|a| - 1] + [a[|a| - 1]];
    }
  }

  /** The difference is taken piecewise, so it keeps the order of `a`. */
  lemma {:induction false} MinusConcat(a1: seq<string>, a2: seq<string>, b: seq<string>)
    ensures Minus(a1 + a2, b) == Minus(a1, b) + Minus(a2, b)
  {
    if a2 == [] {
      assert a1 + a2 == a1;
    } else {
      assert (a1 + a2)[..|a1 + a2| - 1] == a1 + a2[..|a2| - 1];
      MinusConcat(a1, a2[..|a2| - 1], b);
    }
  }

  /** A sequence with no duplicates keeps none. */
  lemma {:induction false} MinusNoDuplicates(a: seq<string>, b: seq<string>)
    requires forall i, j :: 0 <= i < j < |a| ==> a[i] != a[j]
    ensures var m := Minus(a, b); forall i, j :: 0 <= i < j < |m| ==> m[i] != m[j]
  {
    if a != [] {
      var init := a[..|a| - 1];
      MinusNoDuplicates(init, b);
      MinusMembership(init, b, a[|a| - 1]);
    }
  }

  /** Nothing is kept when every element of `a` is in `b`; everything is kept when `b` is empty. */
  lemma {:induction false} MinusBounds(a: seq<string>, b: seq<string>)
    ensures Minus(a, b) == [] <==> forall x :: x in a ==> x in b
    ensures b == [] ==> Minus(a, b) == a
  {
    if a != [] {
      var init := a[..|a| - 1];
      MinusBounds(init, b);
      assert a == init + [a[|a| - 1]];
      if Minus(a, b) == [] {
        assert Minus(init, b) == [];
      }
    }
  }

  /** `add` and `remove` never share an address. */
  lemma AddRemoveDisjoint(data: seq<string>, previous: seq<string>, x: string)
    ensures !(x in Minus(data, previous) && x in Minus(previous, data))
  {
    MinusMembership(data, previous, x);
    MinusMembership(previous, data, x);
  }

  /** Diffing a set against itself gives two empty lists. */
  lemma DiffSelf(s: seq<string>)
    ensures Minus(s, s) == []
  {
    MinusBounds(s, s);
  }

  /**
   * Applying the delta to the previous snapshot gives the new set: an address
   * is in the new set exactly when it is added, or it was there and is not removed.
   */
  lemma DeltaApplies(data: seq<string>, previous: seq<string>, x: string)
    ensures x in data <==>
      x in Minus(data, previous) || (x in previous && x !in Minus(previous, data))
  {
    MinusMembership(data, previous, x);
    MinusMembership(previous, data, x);
  }

  /** The two loops of `generate_delta` that fill `delta['add']` and `delta['remove']`. */
  method Diff(data: seq<string>, previous: seq<string>) returns (add: seq<string>, remove: seq<string>)
    ensures add == Minus(data, previous)
    ensures remove == Minus(previous, data)
  {
    add, remove := [], [];
    for i := 0 to |data|
      invariant add == Minus(data[..i], previous)
    {
      assert data[..i + 1][..i] == data[..i];
      if data[i] !in previous {
        add := add + [data[i]];
      }
    }
    for i := 0 to |previous|
      invariant remove == Minus(previous[..i], data)
    {
      assert previous[..i + 1][..i] == previous[..i];
      if previous[i] !in data {
        remove := remove + [previous[i]];
      }
    }
    assert data[..|data|] == data && previous[..|previous|] == previous;
  }
}
