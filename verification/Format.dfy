/**
  What the library needs to know about a header block, and the reference encoding of an archive.

  The fields of a header are decoded by another crate; here they are two arbitrary functions of
  the block, so everything below holds whatever those functions are.
*/
module Format {
  import opened Bytes

  /** Sizes for which rounding up to a whole block stays within 64 bits. */
  type EntrySize = n: nat | n + 511 < 0x1_0000_0000_0000_0000

  /** `entrySize` decodes the size field of a header block; `valid` is its checksum test. */
  datatype Format = Format(entrySize: seq<byte> -> Option<EntrySize>, valid: seq<byte> -> bool)

  function SizeOf(fmt: Format, header: seq<byte>): Option<EntrySize> {
    fmt.entrySize(header)
  }

  predicate ValidHeader(fmt: Format, header: seq<byte>) {
    fmt.valid(header)
  }

  /** `n` rounded up to a whole number of blocks. */
  function NextMultipleOfBlock(n: nat): (r: nat)
    ensures n <= r < n + BLOCK_SIZE && r % BLOCK_SIZE == 0
  {
    if n % BLOCK_SIZE == 0 then n else n + (BLOCK_SIZE - n % BLOCK_SIZE)
  }

  /** The alignment bytes that follow `n` bytes of entry data. */
  function PadLen(n: nat): (p: nat)
    ensures p < BLOCK_SIZE && (n + p) % BLOCK_SIZE == 0
  {
    NextMultipleOfBlock(n) - n
  }

  /** One entry as it lies in the stream: the reader accepts any alignment bytes. */
  datatype Entry = Entry(header: seq<byte>, data: seq<byte>, pad: seq<byte>)

  predicate IsHeader(header: seq<byte>) {
    |header| == BLOCK_SIZE && !AllZero(header)
  }

  predicate WellFormedEntry(fmt: Format, e: Entry) {
    && IsHeader(e.header)
    && SizeOf(fmt, e.header) == Some(|e.data|)
    && |e.pad| == PadLen(|e.data|)
  }

  predicate WellFormedEntries(fmt: Format, es: seq<Entry>) {
    forall i :: 0 <= i < |es| ==> WellFormedEntry(fmt, es[i])
  }

  function EntryBytes(e: Entry): seq<byte> {
    e.header + e.data + e.pad
  }

  function Encode(es: seq<Entry>): seq<byte> {
    if es == [] then [] else EntryBytes(es[0]) + Encode(es[1..])
  }

  /** A complete archive: the entries, then two zero blocks. */
  function Archive(es: seq<Entry>): seq<byte> {
    Encode(es) + Zeros(2 * BLOCK_SIZE)
  }

  lemma {:induction false} EncodeAppend(a: seq<Entry>, b: seq<Entry>)
    ensures Encode(a + b) == Encode(a) + Encode(b)
  {
    if a == [] {
      assert a + b == b;
    } else {
      assert (a + b)[1..] == a[1..] + b;
      EncodeAppend(a[1..], b);
    }
  }

  lemma EncodeSnoc(es: seq<Entry>, e: Entry)
    ensures Encode(es + [e]) == Encode(es) + EntryBytes(e)
  {
    EncodeAppend(es, [e]);
    assert Encode([e]) == EntryBytes(e) + [];
  }

  lemma EntryAligned(fmt: Format, e: Entry)
    requires WellFormedEntry(fmt, e)
    ensures |EntryBytes(e)| == BLOCK_SIZE + |e.data| + PadLen(|e.data|)
    ensures |EntryBytes(e)| % BLOCK_SIZE == 0
  {
  }

  lemma BlocksAdd(a: nat, b: nat)
    requires a % BLOCK_SIZE == 0 && b % BLOCK_SIZE == 0
    ensures (a + b) % BLOCK_SIZE == 0
  {
  }

  /** Entries occupy whole blocks. */
  lemma {:induction false} EncodeAligned(fmt: Format, es: seq<Entry>)
    requires WellFormedEntries(fmt, es)
    ensures |Encode(es)| % BLOCK_SIZE == 0
  {
    if es != [] {
      hide WellFormedEntry, EntryBytes;
      EncodeAligned(fmt, es[1..]);
      assert WellFormedEntry(fmt, es[0]);
      EntryAligned(fmt, es[0]);
      BlocksAdd(|EntryBytes(es[0])|, |Encode(es[1..])|);
    }
  }
}
