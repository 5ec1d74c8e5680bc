/**
 * The flat layout of a configuration signature: one count vector per element,
 * written one after another into a buffer of allDim ints (allDim being the sum
 * of the isotope numbers).
 */
module Signatures {

  /** The sum of a sequence of lengths; SumNat(ns[..j]) is where element j starts. */
  function SumNat(ns: seq<nat>): nat
  {
    if ns == [] then 0 else SumNat(ns[..|ns| - 1]) + ns[|ns| - 1]
  }

  /** The per-element vectors written one after another. */
  function Flatten(parts: seq<seq<int>>): seq<int>
  {
    if parts == [] then [] else Flatten(parts[..|parts| - 1]) + parts[|parts| - 1]
  }

  /** The lengths of the per-element vectors. */
  function Lengths(parts: seq<seq<int>>): (ns: seq<nat>)
    ensures |ns| == |parts|
    ensures forall j :: 0 <= j < |parts| ==> ns[j] == |parts[j]|
  {
    seq(|parts|, j requires 0 <= j < |parts| => |parts[j]|)
  }

  /** A flattened signature is exactly as long as all its parts together. */
  lemma {:induction false} FlattenLength(parts: seq<seq<int>>)
    ensures |Flatten(parts)| == SumNat(Lengths(parts))
  {
    if parts != [] {
      var init := parts[..|parts| - 1];
      FlattenLength(init);
      assert Lengths(parts)[..|parts| - 1] == Lengths(init);
    }
  }

  /** Element j of a flattened signature starts at the sum of the lengths before it. */
  lemma {:induction false} FlattenAt(parts: seq<seq<int>>, j: nat, k: nat)
    requires j < |parts| && k < |parts[j]|
    ensures SumNat(Lengths(parts)[..j]) + k < |Flatten(parts)|
    ensures Flatten(parts)[SumNat(Lengths(parts)[..j]) + k] == parts[j][k]
  {
    var last := |parts| - 1;
    var init := parts[..last];
    FlattenLength(init);
    assert Lengths(parts)[..last] == Lengths(init);
    if j < last {
      FlattenAt(init, j, k);
      assert Lengths(parts)[..j] == Lengths(init)[..j];
    } else {
      assert Lengths(parts)[..j] == Lengths(init);
    }
  }

  /** Sums over a prefix grow by one element at a time. */
  lemma SumNatStep(ns: seq<nat>, j: nat)
    requires j < |ns|
    ensures SumNat(ns[..j + 1]) == SumNat(ns[..j]) + ns[j]
  {
    assert ns[..j + 1][..j] == ns[..j];
  }

  /** A prefix never sums to more than the whole. */
  lemma {:induction false} SumNatPrefix(ns: seq<nat>, j: nat)
    requires j <= |ns|
    ensures SumNat(ns[..j]) <= SumNat(ns)
  {
    if j < |ns| {
      SumNatPrefix(ns[..|ns| - 1], j);
      assert ns[..|ns| - 1][..j] == ns[..j];
      assert ns[..|ns|] == ns;
    } else {
      assert ns[..j] == ns;
    }
  }

  /** memcpy(space + at, v, |v| * sizeof(int)): v is written at offset at and nothing else changes. */
  method Write(space: array<int>, at: nat, v: seq<int>)
    requires at + |v| <= space.Length
    modifies space
    ensures space[..at] == old(space[..at])
    ensures space[at..at + |v|] == v
    ensures space[at + |v|..] == old(space[at + |v|..])
  {
    var i := 0;
    while i < |v|
      invariant 0 <= i <= |v|
      invariant forall k :: 0 <= k < space.Length ==> space[k] == if at <= k < at + i then v[k - at] else old(space[k])
    {
      space[at + i] := v[i];
      i := i + 1;
    }
  }

  /** The parts before j flatten to a prefix of the whole signature. */
  lemma {:induction false} FlattenPrefix(parts: seq<seq<int>>, j: nat)
    requires j <= |parts|
    ensures |Flatten(parts[..j])| <= |Flatten(parts)|
    ensures Flatten(parts)[..|Flatten(parts[..j])|] == Flatten(parts[..j])
  {
    if j < |parts| {
      var init := parts[..|parts| - 1];
      FlattenPrefix(init, j);
      assert init[..j] == parts[..j];
      assert Flatten(parts) == Flatten(init) + parts[|parts| - 1];
    } else {
      assert parts[..j] == parts;
    }
  }

  /**
   * The copying loop of get_conf_signature: the element vectors are written
   * one after another from the start of space, and the rest of space is left alone.
   */
  method WriteParts(space: array<int>, parts: seq<seq<int>>)
    requires |Flatten(parts)| <= space.Length
    modifies space
    ensures space[..|Flatten(parts)|] == Flatten(parts)
    ensures space[|Flatten(parts)|..] == old(space[|Flatten(parts)|..])
  {
    ghost var total := |Flatten(parts)|;
    var pos := 0;
    for ii := 0 to |parts|
      invariant pos == |Flatten(parts[..ii])| <= total
      invariant space[..pos] == Flatten(parts[..ii])
      invariant space[total..] == old(space[total..])
    {
      assert parts[..ii + 1][..ii] == parts[..ii];
      FlattenPrefix(parts, ii + 1);
      ghost var prefix := space[..pos];
      Write(space, pos, parts[ii]);
      assert space[..pos + |parts[ii]|] == prefix + parts[ii] by {
        assert space[..pos + |parts[ii]|] == space[..pos] + space[pos..pos + |parts[ii]|];
      }
      pos := pos + |parts[ii]|;
    }
    assert parts[..|parts|] == parts;
  }
}
