/// The dimension model of the table: the column widths and row heights, the
/// pixel offset of every grid line, and the half-open pixel interval ("slot")
/// of every column and row.

module Optional {
  datatype Option<T> = None | Some(value: T)
}

module Dimensions {
  import opened Optional

  /** Sum of a size sequence, folded from the left starting at 0, as
      `sizes.reduce((a, b) => a + b, 0)` does. */
  function Sum(s: seq<real>): real
  {
    if s == [] then 0.0 else Sum(s[..|s| - 1]) + s[|s| - 1]
  }

  /** Pixel offset, from the table's own origin, of grid line `k`: the
      leading edge of column (row) `k`, or the far edge when `k == |s|`. */
  function Offset(s: seq<real>, k: nat): real
    requires k <= |s|
  {
    Sum(s[..k])
  }

  predicate Positive(s: seq<real>)
  {
    forall k :: 0 <= k < |s| ==> s[k] > 0.0
  }

  predicate NonNegative(s: seq<real>)
  {
    forall k :: 0 <= k < |s| ==> s[k] >= 0.0
  }

  function Abs(x: real): real
  {
    if x < 0.0 then -x else x
  }

  /** `v` lies in the half-open interval [Offset(k), Offset(k) + s[k]) of slot `k`. */
  predicate InSlot(s: seq<real>, k: nat, v: real)
    requires k < |s|
  {
    Offset(s, k) <= v < Offset(s, k) + s[k]
  }

  /** The first slot at or after `from` whose half-open interval holds `v`,
      scanning in index order; None when no slot from there on holds it. */
  function SlotFrom(s: seq<real>, v: real, from: nat): (k: Option<nat>)
    requires from <= |s|
    ensures k.Some? ==> from <= k.value < |s| && InSlot(s, k.value, v)
    ensures forall j :: from <= j < |s| && (k.None? || j < k.value) ==> !InSlot(s, j, v)
    decreases |s| - from
  {
    if from == |s| then None
    else if InSlot(s, from, v) then Some(from)
    else SlotFrom(s, v, from + 1)
  }

  /** The column (row) whose slot holds the relative coordinate `v`. */
  function Slot(s: seq<real>, v: real): Option<nat>
  {
    SlotFrom(s, v, 0)
  }

  /** Grid line `k + 1` (the far edge of column or row `k`) lies within the
      resize tolerance of `v`. `origin` is the table's left (top) edge. */
  predicate NearLine(s: seq<real>, origin: real, k: nat, v: real)
    requires k < |s|
  {
    Abs(v - (origin + Offset(s, k + 1))) < Tolerance
  }

  /** Distance in pixels within which the mouse grabs a grid line. */
  const Tolerance: real := 8.0

  /** The first line, at or after `from`, that lies within the tolerance of `v`. */
  function LineFrom(s: seq<real>, origin: real, v: real, from: nat): (k: Option<nat>)
    requires from <= |s|
    ensures k.Some? ==> from <= k.value < |s| && NearLine(s, origin, k.value, v)
    ensures forall j :: from <= j < |s| && (k.None? || j < k.value) ==> !NearLine(s, origin, j, v)
    decreases |s| - from
  {
    if from == |s| then None
    else if NearLine(s, origin, from, v) then Some(from)
    else LineFrom(s, origin, v, from + 1)
  }

  // ---------------------------------------------------------------------
  // Offsets

  lemma {:induction false} OffsetStep(s: seq<real>, k: nat)
    requires k < |s|
    ensures Offset(s, k + 1) == Offset(s, k) + s[k]
  {
    assert s[..k + 1][..k] == s[..k];
  }

  lemma {:induction false} OffsetAll(s: seq<real>)
    ensures Offset(s, |s|) == Sum(s)
  {
    assert s[..|s|] == s;
  }

  /** Offsets are taken over prefixes, so appending sizes does not move them. */
  lemma {:induction false} OffsetPrefix(s: seq<real>, n: nat, k: nat)
    requires k <= n <= |s|
    ensures Offset(s[..n], k) == Offset(s, k)
  {
    assert s[..n][..k] == s[..k];
  }

  /** With sizes that are never negative, grid lines appear in index order. */
  lemma {:induction false} OffsetMono(s: seq<real>, j: nat, k: nat)
    requires NonNegative(s)
    requires j <= k <= |s|
    ensures Offset(s, j) <= Offset(s, k)
    decreases k - j
  {
    if j < k {
      OffsetMono(s, j, k - 1);
      OffsetStep(s, k - 1);
    }
  }

  /** With positive sizes the slots are disjoint: the scan's answer is the
      one and only slot holding `v`. */
  lemma {:induction false} SlotExact(s: seq<real>, v: real, k: nat)
    requires Positive(s)
    ensures Slot(s, v) == Some(k) <==> k < |s| && InSlot(s, k, v)
  {
    if k < |s| && InSlot(s, k, v) {
      var found := Slot(s, v);
      if found.None? || found.value != k {
        assert found.Some? && found.value < k;
        var j := found.value;
        OffsetStep(s, j);
        OffsetMono(s, j + 1, k);
        assert false;
      }
    }
  }

  /** With positive sizes some slot holds `v` exactly when
      `0 <= v < Sum(s)`: the slots tile the table's extent without gaps,
      and its far edge belongs to none of them. */
  lemma {:induction false} SlotCovers(s: seq<real>, v: real)
    requires Positive(s)
    ensures Slot(s, v).Some? <==> 0.0 <= v < Sum(s)
  {
    if Slot(s, v).Some? {
      var k := Slot(s, v).value;
      OffsetMono(s, 0, k);
      OffsetStep(s, k);
      OffsetMono(s, k + 1, |s|);
      OffsetAll(s);
    } else if 0.0 <= v < Sum(s) {
      var k := CoveringSlot(s, v);
    }
  }

  /** A slot holding `v`, for `0 <= v < Sum(s)`. */
  lemma {:induction false} CoveringSlot(s: seq<real>, v: real) returns (k: nat)
    requires Positive(s)
    requires 0.0 <= v < Sum(s)
    ensures k < |s| && InSlot(s, k, v)
    decreases |s|
  {
    var n := |s| - 1;
    var init := s[..n];
    assert Sum(s) == Sum(init) + s[n];
    OffsetAll(init);
    OffsetPrefix(s, n, n);
    if v < Sum(init) {
      k := CoveringSlot(init, v);
      OffsetPrefix(s, n, k);
      OffsetPrefix(s, n, k + 1);
      OffsetStep(init, k);
      OffsetStep(s, k);
    } else {
      k := n;
      OffsetStep(s, n);
      OffsetAll(s);
    }
  }
}
