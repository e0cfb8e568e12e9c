/** Bytes, blocks, and the few facts about zero runs and slice arrays the rest relies on. */
module Bytes {
  newtype byte = b: int | 0 <= b < 256

  /** A TAR byte stream is a series of 512-byte blocks. */
  const BLOCK_SIZE: nat := 512

  datatype Option<+T> = None | Some(value: T)

  function Min(a: nat, b: nat): nat {
    if a <= b then a else b
  }

  predicate IsBlocks(n: nat) {
    n % BLOCK_SIZE == 0
  }

  predicate AllZero(s: seq<byte>) {
    forall i :: 0 <= i < |s| ==> s[i] == 0
  }

  function Zeros(n: nat): (z: seq<byte>)
    ensures |z| == n && AllZero(z)
  {
    seq(n, _ => 0)
  }

  /** The bytes of an array of slices, in order. */
  function Concat(slices: seq<seq<byte>>): seq<byte> {
    if slices == [] then [] else slices[0] + Concat(slices[1..])
  }

  /** The first `max` bytes of `s`, or all of `s` if it is shorter. */
  function Clip(s: seq<byte>, max: nat): seq<byte> {
    s[..Min(|s|, max)]
  }

  lemma BlocksMany(k: nat)
    ensures IsBlocks(k * BLOCK_SIZE)
  {
  }

  /** A zero run is determined by its length. */
  lemma ZeroRun(s: seq<byte>)
    requires AllZero(s)
    ensures s == Zeros(|s|)
  {
  }

  lemma AllZeroAppend(a: seq<byte>, b: seq<byte>)
    ensures AllZero(a + b) <==> AllZero(a) && AllZero(b)
  {
    assert a + b == a + b[..];
    if AllZero(a + b) {
      forall i | 0 <= i < |a| ensures a[i] == 0 { assert (a + b)[i] == a[i]; }
      forall i | 0 <= i < |b| ensures b[i] == 0 { assert (a + b)[|a| + i] == b[i]; }
    }
  }

  lemma {:induction false} ConcatAppend(a: seq<seq<byte>>, b: seq<seq<byte>>)
    ensures Concat(a + b) == Concat(a) + Concat(b)
  {
    if a == [] {
      assert a + b == b;
    } else {
      assert (a + b)[1..] == a[1..] + b;
      ConcatAppend(a[1..], b);
    }
  }

  lemma ConcatNone(slices: seq<seq<byte>>)
    ensures Concat(slices[..0]) == []
  {
  }

  lemma ConcatSnoc(s: seq<seq<byte>>, b: seq<byte>)
    ensures Concat(s + [b]) == Concat(s) + b
  {
    ConcatAppend(s, [b]);
    assert Concat([b]) == b + [] == b;
  }

  lemma TakeOneMore<T>(s: seq<T>, i: nat)
    requires i < |s|
    ensures s[..i + 1] == s[..i] + [s[i]]
    ensures s == s[..i + 1] + s[i + 1..]
  {
  }

  /** Taking one more slice appends its bytes. */
  lemma ConcatTake(slices: seq<seq<byte>>, i: nat)
    requires i < |slices|
    ensures Concat(slices[..i + 1]) == Concat(slices[..i]) + slices[i]
    ensures Concat(slices) == Concat(slices[..i + 1]) + Concat(slices[i + 1..])
  {
    hide Concat;
    TakeOneMore(slices, i);
    ConcatSnoc(slices[..i], slices[i]);
    ConcatAppend(slices[..i + 1], slices[i + 1..]);
  }

  /** Bytes that move from the front of one sequence to the back of another. */
  lemma MoveAcross(a: seq<byte>, b: seq<byte>, n: nat)
    requires n <= |b|
    ensures (a + b[..n]) + b[n..] == a + b
  {
  }

  /** Clipping a concatenation. */
  lemma ClipAppend(a: seq<byte>, b: seq<byte>, n: nat)
    ensures n <= |a| ==> Clip(a + b, n) == Clip(a, n)
    ensures n > |a| ==> Clip(a, n) == a && Clip(a + b, n) == a + Clip(b, n - |a|)
  {
  }

  lemma ClipTwice(s: seq<byte>, n: nat)
    ensures s[..Min(n, |s|)] == Clip(s, n) && Clip(Clip(s, n), n) == Clip(s, n)
  {
  }

  /** Prefixes of two sequences, the first one whole unless the second is not reached. */
  lemma PrefixAppend(a: seq<byte>, b: seq<byte>, m: nat, n: nat)
    requires m <= |a| && n <= |b| && (m == |a| || n == 0)
    ensures (a + b)[..m + n] == a[..m] + b[..n]
  {
  }

  /** Moving the start of a window into `s` past `n` of its bytes. */
  lemma WindowShrinks(s: seq<byte>, lo: nat, n: nat, hi: nat)
    requires lo + n <= hi <= |s|
    ensures s[lo..hi][n..] == s[lo + n..hi]
    ensures s[..lo] + s[lo..hi][..n] == s[..lo + n]
  {
  }

  /** The next `n` bytes after the first `i`. */
  lemma TakeMore(s: seq<byte>, i: nat, n: nat)
    requires i + n <= |s|
    ensures s[..i] + s[i..][..n] == s[..i + n]
    ensures i + n == |s| ==> s[i..][..n] == s[i..]
  {
  }

  lemma ClipShorter(s: seq<byte>, n: nat, max: nat)
    requires n <= |Clip(s, max)|
    ensures Clip(s, max)[..n] == Clip(s, n)
    ensures n == |Clip(s, max)| ==> Clip(s, n) == Clip(s, max)
  {
  }

  lemma EmptySlices(s: seq<byte>)
    ensures s[..0] == [] && s[0..0] == []
  {
  }
}
