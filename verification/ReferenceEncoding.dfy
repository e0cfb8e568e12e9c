/** The reference encoding, and what reading a stream of it has to give. */
module ReferenceEncoding {
  import opened Bytes
  import opened Format
  import opened Position
  import opened Grammar
  import opened Io
  import opened ReaderSteps

  datatype File = File(header: seq<byte>, data: seq<byte>)

  /** The archive of some files: headers, data, zeros up to a whole block, and 1024 zeros. */
  function Reference(files: seq<File>): seq<byte> {
    if files == [] then Zeros(1024)
    else files[0].header + files[0].data + Zeros(PadLen(|files[0].data|)) + Reference(files[1..])
  }

  function EntryOf(f: File): Entry {
    Entry(f.header, f.data, Zeros(PadLen(|f.data|)))
  }

  function EntriesOf(files: seq<File>): (es: seq<Entry>)
    ensures |es| == |files| && forall i :: 0 <= i < |es| ==> es[i] == EntryOf(files[i])
  {
    if files == [] then [] else [EntryOf(files[0])] + EntriesOf(files[1..])
  }

  lemma EntriesStep(files: seq<File>, i: nat)
    requires i < |files|
    ensures EntriesOf(files)[..i] + [EntryOf(files[i])] == EntriesOf(files)[..i + 1]
  {
    hide EntriesOf, EntryOf;
    TakeOneMore(EntriesOf(files), i);
  }

  function FilesOf(es: seq<Entry>): (files: seq<File>)
    ensures |files| == |es| && forall i :: 0 <= i < |es| ==> files[i] == File(es[i].header, es[i].data)
  {
    if es == [] then [] else [File(es[0].header, es[0].data)] + FilesOf(es[1..])
  }

  lemma {:induction false} FilesOfSnoc(es: seq<Entry>, e: Entry)
    ensures FilesOf(es + [e]) == FilesOf(es) + [File(e.header, e.data)]
  {
    assert forall i :: 0 <= i < |es| ==> (es + [e])[i] == es[i];
  }

  /** `bytes` more of the current file. */
  function Append(log: seq<File>, bytes: seq<byte>): (r: seq<File>)
    requires log != []
    ensures |r| == |log|
  {
    var n := |log| - 1;
    log[..n] + [File(log[n].header, log[n].data + bytes)]
  }

  lemma AppendNothing(log: seq<File>, bytes: seq<byte>)
    requires log != [] && bytes == []
    ensures Append(log, bytes) == log
  {
    var n := |log| - 1;
    assert log[n].data + [] == log[n].data;
  }

  /** A header block that names the size of the data that follows. */
  predicate Describes(fmt: Format, f: File) {
    IsHeader(f.header) && SizeOf(fmt, f.header) == Some(|f.data|)
  }

  lemma {:induction false} ReferenceIsArchive(files: seq<File>)
    ensures Reference(files) == Archive(EntriesOf(files))
  {
    if files == [] {
      assert Archive([]) == [] + Zeros(1024) == Zeros(1024);
    } else {
      ReferenceIsArchive(files[1..]);
      var e, rest := EntryBytes(EntryOf(files[0])), Encode(EntriesOf(files[1..]));
      assert EntriesOf(files)[1..] == EntriesOf(files[1..]);
      assert (e + rest) + Zeros(2 * BLOCK_SIZE) == e + (rest + Zeros(2 * BLOCK_SIZE));
    }
  }

  lemma DescribedEntries(fmt: Format, files: seq<File>)
    requires forall i :: 0 <= i < |files| ==> Describes(fmt, files[i])
    ensures WellFormedEntries(fmt, EntriesOf(files))
  {
    forall i | 0 <= i < |files| ensures WellFormedEntry(fmt, EntriesOf(files)[i]) {
      assert Describes(fmt, files[i]);
    }
  }

  lemma FilesOfEntries(files: seq<File>)
    ensures FilesOf(EntriesOf(files)) == files
  {
    forall i | 0 <= i < |files| ensures FilesOf(EntriesOf(files))[i] == files[i] {
      assert EntriesOf(files)[i] == EntryOf(files[i]);
    }
  }

  /** Entries with zero alignment are determined by their headers and data. */
  lemma EntriesOfFiles(fmt: Format, es: seq<Entry>)
    requires WellFormedEntries(fmt, es)
    requires forall i :: 0 <= i < |es| ==> AllZero(es[i].pad)
    ensures EntriesOf(FilesOf(es)) == es
  {
    forall i | 0 <= i < |es| ensures EntriesOf(FilesOf(es))[i] == es[i] {
      assert WellFormedEntry(fmt, es[i]);
      ZeroRun(es[i].pad);
    }
  }

  /** A position in data that is an archive, cut off anywhere or followed by anything, lies in the archive. */
  lemma LocatedIn(fmt: Format, c: Cursor, es: seq<Entry>, data: seq<byte>)
    requires WellFormed(fmt, c) && WellFormedEntries(fmt, es)
    requires Text(c) <= data && Agree(data, Archive(es))
    ensures Within(c, es, Zeros(BLOCK_SIZE))
  {
    hide Text, Archive;
    AgreePrefix(Text(c), data, Archive(es));
    ArchiveIsStream(es);
    Located(fmt, c, es, Zeros(BLOCK_SIZE), Zeros(BLOCK_SIZE));
  }

  lemma AgreePrefix(t: seq<byte>, a: seq<byte>, b: seq<byte>)
    requires t <= a && Agree(a, b)
    ensures Agree(t, b)
    ensures |b| <= |t| ==> b <= t
  {
    var n, m := Min(|a|, |b|), Min(|t|, |b|);
    assert a[..m] == a[..n][..m] && b[..m] == b[..n][..m];
  }

  /** Where entry `i` of an archive starts. */
  function StartOf(es: seq<Entry>, i: nat): nat
    requires i <= |es|
  {
    |Encode(es[..i])|
  }

  lemma ArchiveFrom(es: seq<Entry>, i: nat)
    requires i <= |es|
    ensures Archive(es) == Encode(es[..i]) + Archive(es[i..])
  {
    EncodeAppend(es[..i], es[i..]);
    assert es[..i] + es[i..] == es;
    assert Encode(es[..i]) + Encode(es[i..]) + Zeros(2 * BLOCK_SIZE)
        == Encode(es[..i]) + (Encode(es[i..]) + Zeros(2 * BLOCK_SIZE));
  }

  /** The block at the start of entry `i`, or the first of the two zero blocks. */
  lemma BlockInArchive(fmt: Format, es: seq<Entry>, i: nat)
    requires WellFormedEntries(fmt, es) && i <= |es|
    ensures StartOf(es, i) + BLOCK_SIZE <= |Archive(es)|
    ensures Archive(es)[StartOf(es, i)..StartOf(es, i) + BLOCK_SIZE]
      == if i < |es| then es[i].header else Zeros(BLOCK_SIZE)
    ensures i == |es| ==> |Archive(es)| == StartOf(es, i) + 2 * BLOCK_SIZE
    ensures i == |es| ==> AllZero(Archive(es)[StartOf(es, i)..])
  {
    var rest, z := es[i..], Zeros(BLOCK_SIZE);
    ArchiveFrom(es, i);
    ArchiveIsStream(rest);
    SplitFirstBlock(rest, z, z);
    assert i < |es| ==> WellFormedEntry(fmt, es[i]) && rest[0] == es[i];
    var b := StartOf(es, i);
    assert Archive(es) == Encode(es[..i]) + (FirstBlock(rest, z) + AfterFirstBlock(rest, z, z));
    assert Archive(es)[b..] == Archive(rest);
    if i == |es| {
      assert Archive(rest) == [] + Zeros(2 * BLOCK_SIZE) == Zeros(2 * BLOCK_SIZE);
    }
  }

  lemma ZeroBlock()
    ensures AllZero(Zeros(BLOCK_SIZE))
  {
  }

  lemma AgreeSlice(a: seq<byte>, b: seq<byte>, lo: nat, hi: nat)
    requires Agree(a, b) && lo <= hi <= |a| && hi <= |b|
    ensures a[lo..hi] == b[lo..hi]
  {
    var n := Min(|a|, |b|);
    assert a[lo..hi] == a[..n][lo..hi] && b[lo..hi] == b[..n][lo..hi];
  }

  lemma ZeroSlice(d: seq<byte>, a: seq<byte>, b: nat)
    requires Agree(d, a) && b + 2 * BLOCK_SIZE == |a| && AllZero(a[b..])
    ensures AllZero(Slice(d, b + BLOCK_SIZE, b + 2 * BLOCK_SIZE))
  {
    var lo, hi := b + BLOCK_SIZE, Min(b + 2 * BLOCK_SIZE, |d|);
    if lo <= hi {
      AgreeSlice(d, a, lo, hi);
      forall j | lo <= j < hi ensures a[j] == 0 {
        assert a[b..][j - b] == 0;
      }
    }
  }

  /** The first entry whose header fails the checksum test, or the number of entries. */
  function FirstBad(fmt: Format, es: seq<Entry>): (n: nat)
    ensures n <= |es|
    ensures forall i :: 0 <= i < n ==> ValidHeader(fmt, es[i].header)
    ensures n < |es| ==> !ValidHeader(fmt, es[n].header)
  {
    if es == [] || !ValidHeader(fmt, es[0].header) then 0 else 1 + FirstBad(fmt, es[1..])
  }

  /** How much of an archive a reader must see to be done with it: up to the first bad header, or all of it. */
  function Needed(fmt: Format, es: seq<Entry>): nat {
    var bad := FirstBad(fmt, es);
    if bad < |es| then StartOf(es, bad) + BLOCK_SIZE else |Archive(es)|
  }

  /** If the headers are good, all of the archive is. */
  lemma NeededIfGood(fmt: Format, es: seq<Entry>)
    ensures (forall i :: 0 <= i < |es| ==> ValidHeader(fmt, es[i].header)) <==> FirstBad(fmt, es) == |es|
    ensures FirstBad(fmt, es) == |es| ==> Needed(fmt, es) == |Archive(es)|
  {
  }

  /**
    Asking for the next entry of such data: its header if that is whole and passes the checksum test,
    InvalidHeader if it is whole and does not, the end, or an early end of the data.
  */
  lemma NextIn(fmt: Format, es: seq<Entry>, data: seq<byte>, i: nat)
    requires WellFormedEntries(fmt, es) && i <= |es| && Agree(data, Archive(es))
    ensures NextResult(fmt, data, StartOf(es, i)) ==
      if i < |es| then
        if |data| < StartOf(es, i) + BLOCK_SIZE then Failed(UnexpectedEof)
        else if !ValidHeader(fmt, es[i].header) then Failed(InvalidHeader)
        else Ready(Some(es[i].header))
      else
        if |data| < |Archive(es)| then Failed(UnexpectedEof) else Ready(None)
  {
    hide Archive, AllZero, Agree;
    BlockInArchive(fmt, es, i);
    ZeroBlock();
    var a, b := Archive(es), StartOf(es, i);
    if |data| >= b + BLOCK_SIZE {
      AgreeSlice(data, a, b, b + BLOCK_SIZE);
      if i < |es| {
        assert WellFormedEntry(fmt, es[i]);
      } else {
        ZeroSlice(data, a, b);
      }
    }
  }

  /** The entries whose headers were passed. */
  function Entered(c: Cursor): nat {
    |c.done| + if c.at.Body? || c.at.Pad? then 1 else 0
  }

  /** The offset of the next header is the start of one of the entries, or of the trailer. */
  lemma BoundaryInArchive(fmt: Format, c: Cursor, es: seq<Entry>)
    requires WellFormed(fmt, c) && Settled(c.at) && WellFormedEntries(fmt, es)
    requires Within(c, es, Zeros(BLOCK_SIZE))
    ensures Entered(c) <= |es| && Boundary(fmt, c) == StartOf(es, Entered(c))
  {
    var n := |c.done|;
    assert es[..n] == c.done;
    if c.at.Body? || c.at.Pad? {
      assert WellFormedEntry(fmt, es[n]);
      EncodeSnoc(es[..n], es[n]);
      assert es[..n + 1] == es[..n] + [es[n]];
      EntryAligned(fmt, es[n]);
    }
  }

  lemma StartsInOrder(fmt: Format, es: seq<Entry>, i: nat, j: nat)
    requires i <= j <= |es| && WellFormedEntries(fmt, es)
    ensures StartOf(es, i) <= StartOf(es, j)
  {
    EncodeAppend(es[..i], es[i..j]);
    assert es[..j] == es[..i] + es[i..j];
  }

  /** A bad header is never passed. */
  lemma CheckedWithin(fmt: Format, c: Cursor, es: seq<Entry>)
    requires Settled(c.at) && Checked(fmt, c) && Within(c, es, Zeros(BLOCK_SIZE))
    ensures Entered(c) <= FirstBad(fmt, es)
  {
    assert forall i :: 0 <= i < |c.done| ==> c.done[i] == es[i];
  }

  /** Up to the start of an entry, its header, or the two zero blocks, the position is before the end. */
  lemma ShortOfNeeded(fmt: Format, c: Cursor, es: seq<Entry>)
    requires WellFormed(fmt, c) && Settled(c.at) && WellFormedEntries(fmt, es) && !c.at.Done?
    requires Checked(fmt, c) && Within(c, es, Zeros(BLOCK_SIZE))
    ensures |Text(c)| < Needed(fmt, es) && Boundary(fmt, c) + BLOCK_SIZE <= Needed(fmt, es)
  {
    hide Archive, Text, AllZero, GoodPhase;
    var bad := FirstBad(fmt, es);
    CheckedWithin(fmt, c, es);
    BoundaryInArchive(fmt, c, es);
    BlockInArchive(fmt, es, bad);
    StartsInOrder(fmt, es, Entered(c), bad);
    if c.at.Trailer? {
      ShortOfArchive(fmt, c, es);
    } else {
      BeforeNext(fmt, c);
    }
  }

  lemma BeforeNext(fmt: Format, c: Cursor)
    requires WellFormed(fmt, c) && Settled(c.at) && !c.at.Done? && !c.at.Trailer?
    ensures |Text(c)| < Boundary(fmt, c) + BLOCK_SIZE
  {
    hide AllZero;
    BoundaryLength(fmt, c);
  }

  /**
    In an archive that may be cut off, a reader can only be stopped by the first bad header, having
    passed all entries before it, or by an early end of the data.
  */
  lemma FailureIn(fmt: Format, c: Cursor, es: seq<Entry>, data: seq<byte>, e: Error)
    requires WellFormed(fmt, c) && Settled(c.at) && !c.at.Done? && WellFormedEntries(fmt, es)
    requires Checked(fmt, c) && Text(c) <= data && Agree(data, Archive(es))
    requires (e == UnexpectedEof && Text(c) == data) || NextResult(fmt, data, Boundary(fmt, c)) == Failed(e)
    ensures
      || (e == UnexpectedEof && |data| < Needed(fmt, es))
      || (e == InvalidHeader && |data| >= Needed(fmt, es) && Entered(c) == FirstBad(fmt, es) < |es|)
  {
    hide Archive, Text, AllZero, GoodPhase, NextResult, Boundary, Agree, Checked, Within, FirstBad, StartOf;
    LocatedIn(fmt, c, es, data);
    ShortOfNeeded(fmt, c, es);
    CheckedWithin(fmt, c, es);
    if !(e == UnexpectedEof && Text(c) == data) {
      BoundaryInArchive(fmt, c, es);
      NextIn(fmt, es, data, Entered(c));
      BlockInArchive(fmt, es, Entered(c));
    }
  }

  lemma ShortOfArchive(fmt: Format, c: Cursor, es: seq<Entry>)
    requires WellFormed(fmt, c) && WellFormedEntries(fmt, es) && !c.at.Done?
    requires Within(c, es, Zeros(BLOCK_SIZE))
    ensures |Text(c)| < |Archive(es)|
  {
    WithinLength(fmt, c, es, Zeros(BLOCK_SIZE));
  }
}
