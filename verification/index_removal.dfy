/**
 * Removing a batch of positions from a `Vec`.
 *
 * The select-map combinator first collects, in one scan, the ascending list
 * of positions to drop, and then calls `Vec::remove` on them in reverse
 * order, so that no later removal is shifted by an earlier one. This module
 * defines that removal as written and proves that it is the same as keeping
 * the elements whose position was not listed.
 */
module IndexRemoval {

  /** `Vec::remove(i)`: the element at `i` leaves, later elements shift down by one. */
  function RemoveAt<X>(s: seq<X>, i: nat): (r: seq<X>)
    requires i < |s|
    ensures |r| == |s| - 1
    ensures forall j :: 0 <= j < i ==> r[j] == s[j]
    ensures forall j :: i <= j < |r| ==> r[j] == s[j + 1]
  {
    s[..i] + s[i + 1..]
  }

  /** `idx` is strictly ascending and every entry is a valid position in a vector of length `n`. */
  predicate IndicesBelow(idx: seq<nat>, n: nat) {
    && (forall k :: 0 <= k < |idx| ==> idx[k] < n)
    && (forall k, l :: 0 <= k < l < |idx| ==> idx[k] < idx[l])
  }

  /** Recording the next position keeps the list ascending. */
  lemma AppendIndex(idx: seq<nat>, k: nat)
    requires IndicesBelow(idx, k)
    ensures IndicesBelow(idx + [k], k + 1)
    ensures forall j :: j in idx + [k] <==> j in idx || j == k
  {
  }

  /** A list of positions below `k` is also one below any larger bound. */
  lemma IndicesBelowMore(idx: seq<nat>, k: nat, n: nat)
    requires IndicesBelow(idx, k) && k <= n
    ensures IndicesBelow(idx, n)
  {
  }

  /**
   * `for i in idx.iter().rev() { v.remove(*i); }`: the last listed position
   * is removed first.
   */
  function RemoveInReverse<X>(s: seq<X>, idx: seq<nat>): (r: seq<X>)
    requires IndicesBelow(idx, |s|)
    ensures |r| == |s| - |idx|
    decreases |idx|
  {
    if idx == [] then s
    else RemoveInReverse(RemoveAt(s, idx[|idx| - 1]), idx[..|idx| - 1])
  }

  /** The elements of `s` whose mask entry is true, in their original order. */
  function Keep<X>(s: seq<X>, mask: seq<bool>): (r: seq<X>)
    requires |mask| == |s|
    ensures |r| <= |s|
  {
    if s == [] then []
    else (if mask[0] then [s[0]] else []) + Keep(s[1..], mask[1..])
  }

  /** Every kept element comes from a position whose mask entry is true. */
  lemma {:induction false} KeepMembers<X>(s: seq<X>, mask: seq<bool>, j: nat)
    requires |mask| == |s| && j < |Keep(s, mask)|
    ensures exists i :: 0 <= i < |s| && mask[i] && s[i] == Keep(s, mask)[j]
    decreases |s|
  {
    if mask[0] && j == 0 {
      assert mask[0] && s[0] == Keep(s, mask)[j];
    } else {
      var j' := if mask[0] then j - 1 else j;
      KeepMembers(s[1..], mask[1..], j');
      var i' :| 0 <= i' < |s[1..]| && mask[1..][i'] && s[1..][i'] == Keep(s[1..], mask[1..])[j'];
      assert mask[i' + 1] && s[i' + 1] == Keep(s, mask)[j];
    }
  }

  /** A mask that is false everywhere keeps nothing. */
  lemma {:induction false} KeepNone<X>(s: seq<X>, mask: seq<bool>)
    requires |mask| == |s|
    requires forall i :: 0 <= i < |mask| ==> !mask[i]
    ensures Keep(s, mask) == []
    decreases |s|
  {
    if s != [] {
      KeepNone(s[1..], mask[1..]);
    }
  }

  /** The ascending positions whose mask entry is false. */
  function Dropped(mask: seq<bool>): (r: seq<nat>)
    ensures IndicesBelow(r, |mask|)
    ensures forall k :: 0 <= k < |mask| ==> (k in r <==> !mask[k])
  {
    if mask == [] then []
    else Dropped(mask[..|mask| - 1]) + (if mask[|mask| - 1] then [] else [|mask| - 1])
  }

  /** The mask that keeps exactly the positions below `n` not listed in `idx`. */
  function Unlisted(idx: seq<nat>, n: nat): (mask: seq<bool>)
    ensures |mask| == n
    ensures forall k :: 0 <= k < n ==> (mask[k] <==> k !in idx)
  {
    seq(n, k => k !in idx)
  }

  lemma {:induction false} KeepSnoc<X>(s: seq<X>, mask: seq<bool>, x: X, b: bool)
    requires |mask| == |s|
    ensures Keep(s + [x], mask + [b]) == Keep(s, mask) + (if b then [x] else [])
    decreases |s|
  {
    if s == [] {
      assert s + [x] == [x];
      assert mask + [b] == [b];
    } else {
      assert (s + [x])[1..] == s[1..] + [x];
      assert (mask + [b])[1..] == mask[1..] + [b];
      KeepSnoc(s[1..], mask[1..], x, b);
    }
  }

  lemma {:induction false} RemoveInReverseSnoc<X>(s: seq<X>, idx: seq<nat>, x: X)
    requires IndicesBelow(idx, |s|)
    ensures RemoveInReverse(s + [x], idx) == RemoveInReverse(s, idx) + [x]
    decreases |idx|
  {
    if idx != [] {
      var last := idx[|idx| - 1];
      assert RemoveAt(s + [x], last) == RemoveAt(s, last) + [x];
      RemoveInReverseSnoc(RemoveAt(s, last), idx[..|idx| - 1], x);
    }
  }

  /** Removing the dropped positions last-first leaves exactly the kept elements, in order. */
  lemma {:induction false} RemoveInReverseIsKeep<X>(s: seq<X>, mask: seq<bool>)
    requires |mask| == |s|
    ensures RemoveInReverse(s, Dropped(mask)) == Keep(s, mask)
    decreases |s|
  {
    if s != [] {
      var n := |s| - 1;
      var s', m' := s[..n], mask[..n];
      assert s == s' + [s[n]];
      assert mask == m' + [mask[n]];
      KeepSnoc(s', m', s[n], mask[n]);
      RemoveInReverseIsKeep(s', m');
      if mask[n] {
        KeptLast(s', s[n], m');
      } else {
        DroppedLast(s, mask);
      }
    }
  }

  /** A kept last element stays last after the removals. */
  lemma KeptLast<X>(s: seq<X>, x: X, mask: seq<bool>)
    requires |mask| == |s|
    ensures RemoveInReverse(s + [x], Dropped(mask + [true])) == RemoveInReverse(s, Dropped(mask)) + [x]
  {
    assert (mask + [true])[..|mask|] == mask;
    DroppedKept(mask + [true]);
    RemoveInReverseSnoc(s, Dropped(mask), x);
  }

  /** A kept last position adds nothing to the dropped positions. */
  lemma DroppedKept(mask: seq<bool>)
    requires |mask| > 0 && mask[|mask| - 1]
    ensures Dropped(mask) == Dropped(mask[..|mask| - 1])
  {
    assert Dropped(mask) == Dropped(mask[..|mask| - 1]) + [];
  }

  lemma DroppedLast<X>(s: seq<X>, mask: seq<bool>)
    requires |mask| == |s| > 0 && !mask[|s| - 1]
    ensures RemoveInReverse(s, Dropped(mask)) == RemoveInReverse(s[..|s| - 1], Dropped(mask[..|s| - 1]))
  {
    var n := |s| - 1;
    var d := Dropped(mask);
    assert d == Dropped(mask[..n]) + [n];
    assert d[..|d| - 1] == Dropped(mask[..n]);
    assert RemoveAt(s, n) == s[..n];
  }

  /** Two ascending index lists with the same members are the same list. */
  lemma {:induction false} SameIndicesAreEqual(a: seq<nat>, b: seq<nat>, n: nat)
    requires IndicesBelow(a, n) && IndicesBelow(b, n)
    requires forall k: nat :: k in a <==> k in b
    ensures a == b
    decreases |a| + |b|
  {
    assert a != [] ==> a[0] in b;
    assert b != [] ==> b[0] in a;
    if a != [] && b != [] {
      assert b[0] in a;
      assert a[0] == b[0];
      forall k: nat
        ensures k in a[1..] <==> k in b[1..]
      {
        assert k in a[1..] <==> k in a && k != a[0];
        assert k in b[1..] <==> k in b && k != b[0];
      }
      SameIndicesAreEqual(a[1..], b[1..], n);
    }
  }

  /**
   * Reverse-order removal of any ascending list of valid positions is the
   * same as filtering out exactly those positions.
   */
  lemma {:induction false} RemoveInReverseFilters<X>(s: seq<X>, idx: seq<nat>)
    requires IndicesBelow(idx, |s|)
    ensures RemoveInReverse(s, idx) == Keep(s, Unlisted(idx, |s|))
  {
    var mask := Unlisted(idx, |s|);
    forall k: nat
      ensures k in Dropped(mask) <==> k in idx
    {
      if k < |s| {
        assert k in Dropped(mask) <==> !mask[k];
      }
    }
    SameIndicesAreEqual(Dropped(mask), idx, |s|);
    RemoveInReverseIsKeep(s, mask);
  }

  /**
   * The removal loop itself: walk the collected positions from the back,
   * calling `Vec::remove` on each.
   */
  method RemoveListed<X>(v: seq<X>, idx: seq<nat>) returns (r: seq<X>)
    requires IndicesBelow(idx, |v|)
    ensures |r| == |v| - |idx|
    ensures r == Keep(v, Unlisted(idx, |v|))
  {
    r := v;
    var k := |idx|;
    assert idx[..k] == idx;
    while k > 0
      invariant 0 <= k <= |idx|
      invariant |r| == |v| - (|idx| - k)
      invariant IndicesBelow(idx[..k], |r|)
      invariant RemoveInReverse(r, idx[..k]) == RemoveInReverse(v, idx)
    {
      k := k - 1;
      assert idx[..k + 1][..k] == idx[..k];
      r := RemoveAt(r, idx[k]);
    }
    RemoveInReverseFilters(v, idx);
  }
}
