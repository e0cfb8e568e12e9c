/** Arrays of slices, split without copying (src/shared/slices.rs). */
module Slices {
  import opened Bytes

  /** Leading slices, then the front part of the slice that was cut. */
  datatype Prefix = Prefix(slices: seq<seq<byte>>, remainder: seq<byte>) {
    function Buffers(): seq<seq<byte>> { slices + [remainder] }
  }

  /** The back part of the slice that was cut, then the slices after it. */
  datatype Suffix = Suffix(slices: seq<seq<byte>>, remainder: seq<byte>) {
    function Buffers(): seq<seq<byte>> { [remainder] + slices }
  }

  function PrefixBytes(p: Prefix): seq<byte> {
    Concat(p.slices) + p.remainder
  }

  function SuffixBytes(s: Suffix): seq<byte> {
    s.remainder + Concat(s.slices)
  }

  lemma BuffersBytes(p: Prefix, s: Suffix)
    ensures Concat(p.Buffers()) == PrefixBytes(p)
    ensures Concat(s.Buffers()) == SuffixBytes(s)
  {
    ConcatAppend(p.slices, [p.remainder]);
    assert Concat([p.remainder]) == p.remainder + [];
    assert ([s.remainder] + s.slices)[1..] == s.slices;
  }

  /** The split of an array at a byte inside one of its slices. */
  function SplitAtIndex(slices: seq<seq<byte>>, index: nat, offset: nat): (Prefix, Suffix)
    requires index < |slices| && offset < |slices[index]|
  {
    if offset == 0 then
      (Prefix(slices[..index], []), Suffix(slices[index..], []))
    else
      var cut := slices[index];
      (Prefix(slices[..index], cut[..offset]), Suffix(slices[index + 1..], cut[offset..]))
  }

  /** The same for a prefix. Its own remainder is left out of the suffix unless it is what is cut. */
  function PrefixSplitAtIndex(p: Prefix, index: nat, offset: nat): (Prefix, Suffix)
    requires index < |p.Buffers()| && offset < |p.Buffers()[index]|
  {
    if index == |p.slices| then
      (Prefix(p.slices, p.remainder[..offset]), Suffix([], p.remainder[offset..]))
    else
      SplitAtIndex(p.slices, index, offset)
  }

  /** The slice that holds the byte at `offset`, and where in it; `|slices|` if there is no such byte. */
  method FindOffset(slices: seq<seq<byte>>, offset: nat) returns (index: nat, within: nat)
    ensures index <= |slices|
    ensures index < |slices| ==>
      && within < |slices[index]| && offset == |Concat(slices[..index])| + within
      && offset < |Concat(slices)|
    ensures index == |slices| ==> |Concat(slices)| <= offset
  {
    var rem: nat := offset;
    for i := 0 to |slices|
      invariant |Concat(slices[..i])| + rem == offset
    {
      ConcatTake(slices, i);
      if rem >= |slices[i]| {
        rem := rem - |slices[i]|;
      } else {
        return i, rem;
      }
    }
    assert slices[..|slices|] == slices;
    return |slices|, rem;
  }

  lemma CutInTwo(before: seq<byte>, cut: seq<byte>, after: seq<byte>, offset: nat)
    requires offset <= |cut|
    ensures (before + cut[..offset]) + (cut[offset..] + after) == before + cut + after
  {
    assert cut == cut[..offset] + cut[offset..];
  }

  lemma SplitBytes(slices: seq<seq<byte>>, index: nat, offset: nat)
    requires index < |slices| && offset < |slices[index]|
    ensures var (p, s) := SplitAtIndex(slices, index, offset);
            && PrefixBytes(p) + SuffixBytes(s) == Concat(slices)
            && |PrefixBytes(p)| == |Concat(slices[..index])| + offset
  {
    var cut := slices[index];
    ConcatTake(slices, index);
    CutInTwo(Concat(slices[..index]), cut, Concat(slices[index + 1..]), offset);
    if offset == 0 {
      assert slices[index..][1..] == slices[index + 1..];
      assert cut[..0] == [] && cut[0..] == cut;
      assert [] + (cut + Concat(slices[index + 1..])) == cut + Concat(slices[index + 1..]);
    }
  }

  /** The length of the leading slices that lie entirely within the first `max` bytes. */
  function WholeLength(slices: seq<seq<byte>>, max: nat): (n: nat)
    ensures n <= max
  {
    if slices == [] || |slices[0]| > max then 0 else |slices[0]| + WholeLength(slices[1..], max - |slices[0]|)
  }

  lemma {:induction false} WholeUpTo(slices: seq<seq<byte>>, index: nat, max: nat)
    requires index <= |slices| && |Concat(slices[..index])| <= max
    requires index < |slices| ==> max < |Concat(slices[..index])| + |slices[index]|
    ensures WholeLength(slices, max) == |Concat(slices[..index])|
  {
    if index > 0 {
      assert slices[..index][0] == slices[0] && slices[..index][1..] == slices[1..][..index - 1];
      assert index < |slices| ==> slices[1..][index - 1] == slices[index];
      WholeUpTo(slices[1..], index - 1, max - |slices[0]|);
    }
  }

  lemma WholeOfAll(slices: seq<seq<byte>>, max: nat)
    requires |Concat(slices)| <= max
    ensures WholeLength(slices, max) == |Concat(slices)|
  {
    assert slices[..|slices|] == slices;
    WholeUpTo(slices, |slices|, max);
  }

  /** The first slice that is not empty is longer than `max`. */
  predicate CutsFirst(slices: seq<seq<byte>>, max: nat) {
    slices != [] && if slices[0] == [] then CutsFirst(slices[1..], max) else |slices[0]| > max
  }

  /** Some bytes fit, but no slice of them is whole. */
  lemma {:induction false} NothingWhole(slices: seq<seq<byte>>, max: nat)
    ensures WholeLength(slices, max) == 0 && Clip(Concat(slices), max) != [] <==> CutsFirst(slices, max) && max > 0
  {
    if slices != [] {
      NothingWhole(slices[1..], max);
      if slices[0] == [] {
        assert [] + Concat(slices[1..]) == Concat(slices[1..]);
      }
    }
  }

  /** Prefix and suffix together are the whole array, and the prefix is its first `offset` bytes. */
  method SplitAtByteOffset(slices: seq<seq<byte>>, offset: nat) returns (p: Prefix, s: Suffix)
    ensures PrefixBytes(p) == Clip(Concat(slices), offset)
    ensures PrefixBytes(p) + SuffixBytes(s) == Concat(slices)
    ensures p.slices <= slices && |Concat(p.slices)| == WholeLength(slices, offset)
    ensures |Concat(slices)| <= offset ==> p == Prefix(slices, [])
  {
    hide Concat;
    var index, within := FindOffset(slices, offset);
    if index < |slices| {
      WholeUpTo(slices, index, offset);
      SplitBytes(slices, index, within);
      var split := SplitAtIndex(slices, index, within);
      p, s := split.0, split.1;
      assert Concat(slices)[..offset] == PrefixBytes(p);
    } else {
      WholeOfAll(slices, offset);
      NoSuffix(Prefix(slices, []));
      p, s := Prefix(slices, []), Suffix([], []);
    }
  }

  lemma NoSuffix(p: Prefix)
    ensures PrefixBytes(p) + SuffixBytes(Suffix([], [])) == PrefixBytes(p)
    ensures p.remainder == [] ==> PrefixBytes(p) == Concat(p.slices)
  {
  }

  /** A cut in the remainder loses nothing. */
  lemma CutInRemainder(q: Prefix, offset: nat)
    requires offset < |q.remainder|
    ensures var (p, s) := PrefixSplitAtIndex(q, |q.slices|, offset);
            && PrefixBytes(p) == PrefixBytes(q)[..|Concat(q.slices)| + offset]
            && PrefixBytes(p) + SuffixBytes(s) == PrefixBytes(q)
  {
    hide Concat;
    assert Concat([]) == [] by { NothingInNone(); }
    assert q.remainder == q.remainder[..offset] + q.remainder[offset..];
  }

  lemma NothingInNone()
    ensures Concat([]) == []
  {
  }

  /** A cut in the slices loses the remainder, if there is one. */
  lemma CutBeforeRemainder(q: Prefix, index: nat, offset: nat)
    requires index < |q.slices| && offset < |q.slices[index]|
    ensures var (p, s) := PrefixSplitAtIndex(q, index, offset);
            var n := |Concat(q.slices[..index])| + offset;
            && n < |Concat(q.slices)|
            && PrefixBytes(p) == PrefixBytes(q)[..n]
            && (PrefixBytes(p) + SuffixBytes(s) == PrefixBytes(q) <==> q.remainder == [])
  {
    hide Concat;
    SplitBytes(q.slices, index, offset);
    ConcatTake(q.slices, index);
    var (p, s) := PrefixSplitAtIndex(q, index, offset);
    var n := |Concat(q.slices[..index])| + offset;
    assert (PrefixBytes(p) + SuffixBytes(s))[..n] == PrefixBytes(p);
    assert PrefixBytes(q)[..n] == Concat(q.slices)[..n];
  }

  /**
    Splitting a prefix again. The first half is always right. The two halves make up the whole
    exactly when the prefix has no remainder or the cut does not come before it.
  */
  method PrefixSplitAtByteOffset(q: Prefix, offset: nat) returns (p: Prefix, s: Suffix)
    ensures PrefixBytes(p) == Clip(PrefixBytes(q), offset)
    ensures PrefixBytes(p) + SuffixBytes(s) == PrefixBytes(q)
      <==> q.remainder == [] || |Concat(q.slices)| <= offset
    ensures p.slices <= q.slices
  {
    hide Concat, PrefixBytes, SuffixBytes;
    var buffers := q.Buffers();
    BuffersBytes(q, Suffix([], []));
    BytesOfSlices(q);
    var index, within := FindOffset(buffers, offset);
    if index < |buffers| {
      var split := PrefixSplitAtIndex(q, index, within);
      p, s := split.0, split.1;
      assert buffers[..index] == q.slices[..index];
      if index == |q.slices| {
        assert q.slices[..index] == q.slices;
        CutInRemainder(q, within);
      } else {
        CutBeforeRemainder(q, index, within);
      }
    } else {
      NoSuffix(q);
      p, s := q, Suffix([], []);
    }
  }

  lemma BytesOfSlices(p: Prefix)
    ensures |PrefixBytes(p)| == |Concat(p.slices)| + |p.remainder|
  {
  }

  /** A cut inside the slices of a prefix that has a remainder: the suffix does not hold the remainder. */
  lemma SuffixDropsRemainder()
    ensures var q := Prefix([[1]], [2]);
            var (p, s) := PrefixSplitAtIndex(q, 0, 0);
            PrefixBytes(q) == [1, 2] && PrefixBytes(p) == [] && SuffixBytes(s) == [1]
  {
    var one: seq<seq<byte>> := [[1]];
    assert one[..0] == [] && one[0..] == one && one[1..] == [];
    assert Concat(one) == [1] + [] == [1];
  }

  method TakePrefix(slices: seq<seq<byte>>, len: nat) returns (p: Prefix)
    ensures PrefixBytes(p) == Clip(Concat(slices), len)
    ensures |Concat(slices)| <= len ==> p == Prefix(slices, [])
    ensures |Concat(p.slices)| == WholeLength(slices, len)
  {
    var s;
    p, s := SplitAtByteOffset(slices, len);
  }
}
