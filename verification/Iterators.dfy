/** The two iterators that cap and skip a number of bytes (src/shared/slices.rs:268-332). */
module Iterators {
  import opened Bytes

  lemma ConcatHead(s: seq<seq<byte>>)
    requires s != []
    ensures Concat(s) == s[0] + Concat(s[1..])
  {
  }

  class TakeBytesLen {
    var inner: seq<seq<byte>>
    var rem: nat

    constructor (buffers: seq<seq<byte>>, n: nat)
      ensures inner == buffers && rem == n
    {
      inner, rem := buffers, n;
    }

    /** The bytes still to be yielded. */
    ghost function Pending(): seq<byte>
      reads this
    {
      Clip(Concat(inner), rem)
    }

    method Next() returns (o: Option<seq<byte>>)
      modifies this
      ensures o.Some? ==> old(Pending()) == o.value + Pending() && |inner| < old(|inner|)
      ensures o.None? ==> old(Pending()) == [] && Pending() == [] && |inner| <= old(|inner|)
    {
      if rem == 0 || inner == [] {
        return None;
      }
      var buf := inner[0];
      inner := inner[1..];
      if rem >= |buf| {
        rem := rem - |buf|;
      } else {
        buf := buf[..rem];
        rem := 0;
      }
      o := Some(buf);
    }
  }

  class SkipBytesLen {
    var inner: seq<seq<byte>>
    var skip: nat

    constructor (buffers: seq<seq<byte>>, n: nat)
      ensures inner == buffers && skip == n
    {
      inner, skip := buffers, n;
    }

    ghost function Pending(): seq<byte>
      reads this
    {
      Concat(inner)[Min(skip, |Concat(inner)|)..]
    }

    method Next() returns (o: Option<seq<byte>>)
      modifies this
      ensures o.Some? ==> old(Pending()) == o.value + Pending() && |inner| < old(|inner|)
      ensures o.None? ==> old(Pending()) == [] && Pending() == [] && |inner| <= old(|inner|)
    {
      if skip == 0 {
        if inner == [] {
          return None;
        }
        o, inner := Some(inner[0]), inner[1..];
        return;
      }
      var rem: nat := skip;
      while inner != []
        invariant old(Pending()) == Concat(inner)[Min(rem, |Concat(inner)|)..]
        invariant |inner| <= old(|inner|)
        decreases |inner|
      {
        var buf := inner[0];
        ConcatHead(inner);
        inner := inner[1..];
        if rem >= |buf| {
          rem := rem - |buf|;
        } else {
          skip := 0;
          return Some(buf[rem..]);
        }
      }
      skip := 0;
      o := None;
    }
  }

  /**
    The two are complementary: for every `n`, what the first yields and then what the second
    yields is the whole, and the first yields the first `n` bytes.
  */
  method TakeThenSkip(buffers: seq<seq<byte>>, n: nat) returns (front: seq<seq<byte>>, back: seq<seq<byte>>)
    ensures Concat(front) == Clip(Concat(buffers), n)
    ensures Concat(front) + Concat(back) == Concat(buffers)
  {
    front := DrainTake(buffers, n);
    back := DrainSkip(buffers, n);
    var all := Concat(buffers);
    var m := Min(n, |all|);
    assert all[..m] + all[m..] == all;
  }

  method DrainTake(buffers: seq<seq<byte>>, n: nat) returns (out: seq<seq<byte>>)
    ensures Concat(out) == Clip(Concat(buffers), n)
  {
    out := [];
    var it := new TakeBytesLen(buffers, n);
    var o := it.Next();
    while o.Some?
      invariant fresh(it)
      invariant Concat(out) + (if o.Some? then o.value else []) + it.Pending() == Clip(Concat(buffers), n)
      invariant o.None? ==> it.Pending() == []
      decreases |it.inner|, o.Some?
    {
      ConcatSnoc(out, o.value);
      out := out + [o.value];
      o := it.Next();
    }
  }

  method DrainSkip(buffers: seq<seq<byte>>, n: nat) returns (out: seq<seq<byte>>)
    ensures Concat(out) == Concat(buffers)[Min(n, |Concat(buffers)|)..]
  {
    out := [];
    var it := new SkipBytesLen(buffers, n);
    var o := it.Next();
    while o.Some?
      invariant fresh(it)
      invariant Concat(out) + (if o.Some? then o.value else []) + it.Pending()
        == Concat(buffers)[Min(n, |Concat(buffers)|)..]
      invariant o.None? ==> it.Pending() == []
      decreases |it.inner|, o.Some?
    {
      ConcatSnoc(out, o.value);
      out := out + [o.value];
      o := it.Next();
    }
  }
}
