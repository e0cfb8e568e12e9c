/** Clients that read archives: the full round trip, truncation, and the ways of leaving an entry. */
module ReadClient {
  import opened Bytes
  import opened Format
  import opened Position
  import opened Grammar
  import opened Buffer
  import opened Io
  import opened ReaderSteps
  import opened Reader
  import opened Writer
  import opened ReferenceEncoding
  import opened WriteClient

  datatype Ending = Finished | Broken(error: Error) | GaveUp

  /** The room in the caller's buffer at each read; a read into no room would look like the end. */
  type Rooms = nat -> nat

  function RoomAt(rooms: Rooms, i: nat): (n: nat)
    ensures n > 0
  {
    rooms(i) + 1
  }

  /** The files a client has been given in full at a position. */
  function Seen(c: Cursor): seq<File> {
    FilesOf(c.done) + if c.at.Pad? then [File(c.at.h, c.at.d)] else []
  }

  /** What was delivered: whole files, and possibly the front part of one more. */
  ghost predicate Delivered(c: Cursor, files: seq<File>, partial: Option<File>) {
    match partial
    case None => files == Seen(c) && !c.at.Body?
    case Some(p) => files == FilesOf(c.done) && (c.at.Body? || c.at.Pad?) && p == File(c.at.h, c.at.d)
  }

  /** Progress, counted so that every decided poll adds to it. */
  function Progress(c: Cursor): nat {
    2 * |Encode(c.done)| +
    match c.at
    case Body(_, d) => 2 + 2 * |d|
    case Pad(_, d, _) => 3 + 2 * |d|
    case _ => 0
  }

  lemma ProgressBound(fmt: Format, c: Cursor)
    requires WellFormed(fmt, c) && Settled(c.at)
    ensures Progress(c) <= 2 * |Text(c)|
  {
  }

  /** Completing an entry completes a file. */
  lemma CompletedFiles(fmt: Format, c: Cursor, done: seq<Entry>)
    requires c.at.Body? || c.at.Pad?
    requires Completed(c, done) && WellFormedEntries(fmt, done)
    ensures FilesOf(done) == FilesOf(c.done) + [File(c.at.h, c.at.d)]
    ensures 2 * |Encode(done)| >= 2 * |Encode(c.done)| + 2 * BLOCK_SIZE + 2 * |c.at.d|
  {
    var n := |c.done|;
    assert done == c.done + [done[n]];
    FilesOfSnoc(c.done, done[n]);
    EncodeSnoc(c.done, done[n]);
    assert WellFormedEntry(fmt, done[n]);
  }

  /** What a read that is ready means for what was seen. */
  lemma AfterRead(fmt: Format, c: Cursor, c': Cursor, bytes: seq<byte>, room: nat)
    requires WellFormed(fmt, c) && (c.at.Body? || c.at.Pad?) && WellFormed(fmt, c') && room > 0
    requires ReadGives(fmt, c, c', bytes, room)
    ensures Progress(c') > Progress(c) && (c'.at.Body? ==> c.at.Body?)
    ensures bytes == [] ==>
      && !c'.at.Body? && !c'.at.Done? && (c'.at.Pad? ==> c'.done == c.done && c'.at.h == c.at.h)
      && Seen(c') == FilesOf(c.done) + [File(c.at.h, c.at.d)]
    ensures bytes != [] ==>
      (c'.at.Body? || c'.at.Pad?) && c'.done == c.done && c'.at.h == c.at.h && c'.at.d == c.at.d + bytes
  {
    hide Encode, Completed;
    if c.at.Pad? { CompletedFiles(fmt, c, c'.done); }
  }

  /** One read inside an entry, and what it means for what was seen. */
  method ReadSome(rd: ArchiveReader, header: seq<byte>, room: nat) returns (r: Poll<seq<byte>>)
    requires rd.Valid() && (rd.cur.at.Body? || rd.cur.at.Pad?) && rd.cur.at.h == header && room > 0
    modifies rd`state, rd`cur, rd.buf, rd.buf.data, rd.io`clock, rd.io`off
    ensures rd.Valid() && (old(rd.Aligned()) ==> rd.Aligned())
    ensures Boundary(rd.fmt, rd.cur) == Boundary(rd.fmt, old(rd.cur)) && (rd.cur.at.Body? ==> old(rd.cur).at.Body?)
    ensures r == Ready([]) ==>
      && !rd.cur.at.Body? && !rd.cur.at.Done?
      && (rd.cur.at.Pad? ==> rd.cur.done == old(rd.cur).done && rd.cur.at.h == header)
      && Seen(rd.cur) == FilesOf(old(rd.cur).done) + [File(header, old(rd.cur).at.d)]
    ensures r != Ready([]) ==>
      && (rd.cur.at.Body? || rd.cur.at.Pad?) && rd.cur.done == old(rd.cur).done && rd.cur.at.h == header
      && rd.cur.at.d == old(rd.cur).at.d + if r.Ready? then r.value else []
    ensures r.Ready? && old(rd.cur).at.Body? ==>
      || |r.value| == room || SizeOf(rd.fmt, header) == Some(|old(rd.cur).at.d| + |r.value|)
      || rd.buf.Buffered() == []
    ensures r.Ready? ==> Progress(rd.cur) > Progress(old(rd.cur))
    ensures !r.Ready? ==> Progress(rd.cur) == Progress(old(rd.cur))
    ensures r.Failed? ==> r.error == Device || (r.error == UnexpectedEof && rd.Offset() == |rd.io.data|)
    ensures Willing(rd.io.schedule) ==> !r.Pending? && r != Failed(Device)
  {
    hide Text, GoodPhase, StateAt, Completed, SameEntries, Boundary, WholeBlocks, NeverZero, ReadGives, Seen, FilesOf,
      Progress, Buf.Buffered;
    ghost var c := rd.cur;
    ghost var clock := rd.io.clock;
    r := rd.PollRead(room, header);
    if Willing(rd.io.schedule) { WillingNeverBlames(rd.io.schedule, clock, rd.io.clock, r); }
    if r.Ready? {
      AfterRead(rd.fmt, c, rd.cur, r.value, room);
    } else if c.at.Pad? {
      SameEntriesWithin(c, rd.cur);
      assert Progress(rd.cur) == Progress(c) by { SameProgress(c, rd.cur); }
    }
  }

  lemma SameProgress(c: Cursor, c': Cursor)
    requires c.at.Pad? && c'.at.Pad? && c'.done == c.done && c'.at.d == c.at.d
    ensures Progress(c') == Progress(c)
  {
  }

  /** Reads one entry until a read returns nothing. */
  method ReadFile(rd: ArchiveReader, header: seq<byte>, rooms: Rooms, polls: nat)
    returns (ending: Ending, data: seq<byte>, left: nat)
    requires rd.Valid() && rd.cur.at == Body(header, [])
    modifies rd`state, rd`cur, rd.buf, rd.buf.data, rd.io`clock, rd.io`off
    ensures rd.Valid() && (old(rd.Aligned()) ==> rd.Aligned()) && left <= polls
    ensures ending.Finished? ==>
      && !rd.cur.at.Body? && !rd.cur.at.Done?
      && Seen(rd.cur) == FilesOf(old(rd.cur).done) + [File(header, data)]
    ensures !ending.Finished? ==>
      && (rd.cur.at.Body? || rd.cur.at.Pad?) && rd.cur.done == old(rd.cur).done
      && rd.cur.at.h == header && rd.cur.at.d == data
    ensures ending.Broken? ==>
      ending.error == Device || (ending.error == UnexpectedEof && rd.Offset() == |rd.io.data|)
    ensures Willing(rd.io.schedule) ==>
      && (!ending.Broken? ==> left + Progress(rd.cur) >= polls + Progress(old(rd.cur)))
      && (ending.GaveUp? ==> left == 0)
      && ending != Broken(Device)
  {
    hide Text, GoodPhase, StateAt, Encode, Completed, Progress, Seen, FilesOf, WholeBlocks, Buf.Buffered;
    data, left := [], polls;
    while left > 0
      invariant rd.Valid() && (old(rd.Aligned()) ==> rd.Aligned()) && left <= polls
      invariant rd.cur.at.Body? || rd.cur.at.Pad?
      invariant rd.cur.done == old(rd.cur).done && rd.cur.at.h == header && rd.cur.at.d == data
      invariant Willing(rd.io.schedule) ==> left + Progress(rd.cur) >= polls + Progress(old(rd.cur))
      decreases left
    {
      left := left - 1;
      var r := ReadSome(rd, header, RoomAt(rooms, left));
      if r.Failed? {
        return Broken(r.error), data, left;
      }
      if r.Ready? {
        if r.value == [] {
          return Finished, data, left;
        }
        data := data + r.value;
      }
    }
    ending := GaveUp;
  }

  /** Moving to the next header neither loses nor adds a file. */
  lemma SeenStays(fmt: Format, c: Cursor, c': Cursor)
    requires SameEntries(c, c') && !c.at.Body? && WellFormedEntries(fmt, c'.done)
    ensures !c'.at.Body? ==> Seen(c') == Seen(c)
    ensures c'.at.Body? || c'.at.Done? ==> FilesOf(c'.done) == Seen(c)
    ensures c'.at.Body? ==> Progress(c') > Progress(c)
  {
    if c.at.Pad? && !c'.at.Pad? {
      CompletedFiles(fmt, c, c'.done);
    }
  }

  /** One request for the next entry, and what it means for what was seen. */
  method AskNext(rd: ArchiveReader) returns (r: Poll<Option<seq<byte>>>)
    requires rd.Valid() && rd.Aligned() && !rd.cur.at.Body? && !rd.cur.at.Done?
    modifies rd`state, rd`cur, rd.buf, rd.buf.data, rd.io`clock, rd.io`off
    ensures rd.Valid() && rd.Aligned()
    ensures match r
            case Ready(None) => rd.cur.at.Done? && Seen(rd.cur) == Seen(old(rd.cur))
            case Ready(Some(h)) =>
              && rd.cur.at == Body(h, []) && FilesOf(rd.cur.done) == Seen(old(rd.cur))
              && Progress(rd.cur) > Progress(old(rd.cur))
            case Pending => !Willing(rd.io.schedule)
            case Failed(e) =>
              if e == Device then !Willing(rd.io.schedule)
              else NextResult(rd.fmt, rd.io.data, Boundary(rd.fmt, rd.cur)) == r
    ensures !r.Ready? ==> !rd.cur.at.Body? && !rd.cur.at.Done? && Seen(rd.cur) == Seen(old(rd.cur))
  {
    hide Text, GoodPhase, StateAt, Encode, NextResult, SameEntries, Boundary, Seen, Progress, WholeBlocks,
      Buf.Buffered;
    ghost var c := rd.cur;
    ghost var clock := rd.io.clock;
    ghost var late;
    r, late := rd.PollNextEntry();
    if Willing(rd.io.schedule) { WillingNeverBlames(rd.io.schedule, clock, rd.io.clock, r); }
    SeenStays(rd.fmt, c, rd.cur);
  }

  /**
    Reads a whole archive, whatever the data is. What is delivered is always what the position in
    the data says, and an error is always the one the data calls for.
  */
  method ReadArchive(rd: ArchiveReader, rooms: Rooms, polls: nat)
    returns (ending: Ending, files: seq<File>, partial: Option<File>)
    requires rd.Valid() && rd.Aligned() && rd.cur == START
    modifies rd`state, rd`cur, rd.buf, rd.buf.data, rd.io`clock, rd.io`off
    ensures rd.Valid() && Delivered(rd.cur, files, partial)
    ensures ending.Finished? <==> rd.cur.at.Done?
    ensures ending.Broken? && ending.error != Device ==>
      if partial.Some? then ending.error == UnexpectedEof && rd.Offset() == |rd.io.data|
      else NextResult(rd.fmt, rd.io.data, Boundary(rd.fmt, rd.cur)) == Failed(ending.error)
    ensures Willing(rd.io.schedule) ==> ending != Broken(Device)
    ensures Willing(rd.io.schedule) && polls > 2 * |rd.io.data| ==> !ending.GaveUp?
  {
    hide Text, GoodPhase, StateAt, Encode, Completed, NextResult, SameEntries, Boundary, Progress, WholeBlocks,
      Buf.Buffered;
    files, partial := [], None;
    var left: nat := polls;
    assert Progress(START) == 0 by { StartProgress(); }
    while left > 0
      invariant left <= polls
      invariant rd.Valid() && rd.Aligned() && !rd.cur.at.Body? && !rd.cur.at.Done? && files == Seen(rd.cur)
      invariant Willing(rd.io.schedule) ==> left + Progress(rd.cur) >= polls
      decreases left
    {
      left := left - 1;
      var r := AskNext(rd);
      if r.Failed? {
        return Broken(r.error), files, None;
      }
      if r.Ready? {
        if r.value.None? {
          return Finished, files, None;
        }
        var data;
        ending, data, left := ReadFile(rd, r.value.value, rooms, left);
        ProgressInData(rd);
        if !ending.Finished? {
          return ending, files, Some(File(r.value.value, data));
        }
        files := files + [File(r.value.value, data)];
      }
    }
    ProgressInData(rd);
    ending := GaveUp;
  }

  lemma StartProgress()
    ensures Progress(START) == 0
  {
  }

  lemma ProgressInData(rd: ArchiveReader)
    requires rd.Valid()
    ensures Progress(rd.cur) <= 2 * |rd.io.data|
  {
    ProgressBound(rd.fmt, rd.cur);
    assert |Text(rd.cur)| == |rd.io.data[..rd.Offset()]|;
  }

  /** `files`, and the front part of the next one if there is one, are the beginning of `all`. */
  ghost predicate Begins(files: seq<File>, partial: Option<File>, all: seq<File>) {
    && files <= all
    && (partial.Some? ==>
          && |files| < |all| && partial.value.header == all[|files|].header
          && partial.value.data <= all[|files|].data)
  }

  lemma FileAt(es: seq<Entry>, n: nat)
    requires n < |es|
    ensures FilesOf(es)[n] == File(es[n].header, es[n].data)
    ensures FilesOf(es[..n]) + [FilesOf(es)[n]] <= FilesOf(es)
  {
    hide FilesOf;
    TakeOneMore(es, n);
    FilesOfSnoc(es[..n], es[n]);
    FilesOfPrefix(es[..n + 1], es);
  }

  lemma DeliveredBegins(fmt: Format, c: Cursor, es: seq<Entry>, files: seq<File>, partial: Option<File>)
    requires Delivered(c, files, partial) && Settled(c.at)
    requires Within(c, es, Zeros(BLOCK_SIZE))
    ensures Begins(files, partial, FilesOf(es))
    ensures c.at.Done? ==> files == FilesOf(es)
  {
    hide FilesOf;
    FilesOfPrefix(c.done, es);
    if c.at.Body? || c.at.Pad? {
      FileAt(es, |c.done|);
      assert es[..|c.done|] == c.done;
    }
  }

  lemma FilesOfPrefix(a: seq<Entry>, b: seq<Entry>)
    requires a <= b
    ensures FilesOf(a) <= FilesOf(b)
  {
    forall i | 0 <= i < |a| ensures FilesOf(a)[i] == FilesOf(b)[i] {
      assert a[i] == b[i];
    }
  }

  /**
    Reading data that is an archive, cut off anywhere or followed by anything, in which headers may
    fail the checksum test. A complete archive of good headers cannot end otherwise than with all
    files. If the first bad header is in the data, the reader ends there with InvalidHeader, having
    delivered exactly the files before it. Otherwise it ends with UnexpectedEof, having delivered the
    beginning of the files. Only the source's own failures, or a client that stops polling, can get
    in the way.
  */
  method ReadArchiveOf(rd: ArchiveReader, ghost es: seq<Entry>, rooms: Rooms, polls: nat)
    returns (ending: Ending, files: seq<File>, partial: Option<File>)
    requires rd.Valid() && rd.Aligned() && rd.cur == START
    requires WellFormedEntries(rd.fmt, es)
    requires Agree(rd.io.data, Archive(es))
    modifies rd`state, rd`cur, rd.buf, rd.buf.data, rd.io`clock, rd.io`off
    ensures Begins(files, partial, FilesOf(es))
    ensures |files| + (if partial.Some? then 1 else 0) <= FirstBad(rd.fmt, es)
    ensures ending.Finished? ==>
      && |rd.io.data| >= |Archive(es)| && FirstBad(rd.fmt, es) == |es|
      && files == FilesOf(es) && partial == None && rd.Valid() && rd.cur.at.Done?
    ensures ending.Broken? && ending.error != Device ==>
      || (ending.error == UnexpectedEof && |rd.io.data| < Needed(rd.fmt, es))
      || (ending.error == InvalidHeader && |rd.io.data| >= Needed(rd.fmt, es)
          && FirstBad(rd.fmt, es) < |es| && files == FilesOf(es[..FirstBad(rd.fmt, es)]) && partial == None)
    ensures Willing(rd.io.schedule) && polls > 2 * |rd.io.data| ==>
      ending ==
        if |rd.io.data| < Needed(rd.fmt, es) then Broken(UnexpectedEof)
        else if FirstBad(rd.fmt, es) < |es| then Broken(InvalidHeader)
        else Finished
  {
    hide Text, GoodPhase, Agree, Boundary, NextResult, Begins, Delivered, FilesOf, Archive, Buf.Buffered, Checked,
      FirstBad, Needed, Entered;
    ending, files, partial := ReadArchive(rd, rooms, polls);
    assert Text(rd.cur) <= rd.io.data;
    assert rd.Offset() == |rd.io.data| ==> Text(rd.cur) == rd.io.data;
    OutcomeIn(rd.fmt, rd.cur, es, rd.io.data, files, partial);
    NeededIfGood(rd.fmt, es);
    if ending.Broken? && ending.error != Device {
      FailureIn(rd.fmt, rd.cur, es, rd.io.data, ending.error);
      if ending.error == InvalidHeader { FilesBefore(es, files, FirstBad(rd.fmt, es)); }
    }
  }

  lemma OutcomeIn(
    fmt: Format, c: Cursor, es: seq<Entry>, data: seq<byte>, files: seq<File>, partial: Option<File>)
    requires WellFormed(fmt, c) && Settled(c.at) && WellFormedEntries(fmt, es) && Checked(fmt, c)
    requires Text(c) <= data && Agree(data, Archive(es)) && Delivered(c, files, partial)
    ensures Begins(files, partial, FilesOf(es))
    ensures |files| + (if partial.Some? then 1 else 0) == Entered(c) <= FirstBad(fmt, es)
    ensures c.at.Done? ==> |data| >= |Archive(es)| && files == FilesOf(es) && partial == None && Entered(c) == |es|
  {
    LocatedIn(fmt, c, es, data);
    CheckedWithin(fmt, c, es);
    DeliveredBegins(fmt, c, es, files, partial);
    if c.at.Done? {
      assert c.done == es;
      assert Text(c) == Archive(es);
    }
  }

  lemma {:induction false} FilesBefore(es: seq<Entry>, files: seq<File>, n: nat)
    requires n <= |es| && |files| == n && files <= FilesOf(es)
    ensures files == FilesOf(es[..n])
  {
    hide FilesOf;
    FilesOfPrefix(es[..n], es);
  }

  lemma ReferenceEntries(fmt: Format, files: seq<File>)
    requires forall i :: 0 <= i < |files| ==> Describes(fmt, files[i]) && ValidHeader(fmt, files[i].header)
    ensures var es := EntriesOf(files);
            && WellFormedEntries(fmt, es) && FilesOf(es) == files
            && FirstBad(fmt, es) == |es| && Needed(fmt, es) == |Archive(es)|
            && Reference(files) == Archive(es) && Agree(Reference(files), Archive(es))
  {
    ReferenceIsArchive(files);
    DescribedEntries(fmt, files);
    FilesOfEntries(files);
    var es := EntriesOf(files);
    assert forall i :: 0 <= i < |es| ==> es[i] == EntryOf(files[i]);
    NeededIfGood(fmt, es);
  }

  /** Reads the reference encoding of some files: they come back unchanged and in order. */
  method ReadBack(fmt: Format, ghost files: seq<File>, source: Source, capacity: nat, rooms: Rooms, polls: nat)
    returns (ending: Ending, out: seq<File>)
    requires forall i :: 0 <= i < |files| ==> Describes(fmt, files[i]) && ValidHeader(fmt, files[i].header)
    requires source.data == Reference(files) && source.off == 0 && WholeBlocks(source.schedule) && capacity > 0
    modifies source`clock, source`off
    ensures ending.Finished? ==> out == files
    ensures ending.Broken? ==> ending == Broken(Device)
    ensures Willing(source.schedule) && polls > 2 * |source.data| ==> ending.Finished?
  {
    hide Text, GoodPhase, StateAt, Reference, EntriesOf, FilesOf, Describes, WellFormedEntries, Agree, Archive,
      Buf.Buffered, Needed, FirstBad, Checked;
    ReferenceEntries(fmt, files);
    ghost var es := EntriesOf(files);
    var rd := new ArchiveReader(fmt, capacity, source);
    var partial;
    ending, out, partial := ReadArchiveOf(rd, es, rooms, polls);
  }

  /**
    Full round trip. Files written by the write client, on any sink, in any pieces, and read back
    by the read client, through any capacity and any block-aligned reads into any buffers, come
    back unchanged and in order.
  */
  method RoundTrip(
    fmt: Format, files: seq<File>,
    sink: Sink, writeCapacity: nat, plan: Plan, writePolls: nat,
    pulls: Schedule, readCapacity: nat, rooms: Rooms, readPolls: nat)
    returns (written: bool, ending: Ending, out: seq<File>)
    requires sink.received == [] && sink.closed.None?
    requires forall i :: 0 <= i < |files| ==>
      && Describes(fmt, files[i]) && ValidHeader(fmt, files[i].header)
      && (files[i].header[0] != 0 || writeCapacity > 1 || !sink.vectored)
    requires writeCapacity > 0 && readCapacity > 0 && WholeBlocks(pulls)
    modifies sink
    ensures written && ending.Finished? ==> out == files
    ensures written && ending.Broken? ==> ending == Broken(Device)
    ensures Willing(sink.schedule) && Offers(plan) && writePolls >= Enough(files) ==> written
    ensures written && Willing(pulls) && readPolls > 2 * |Reference(files)| ==> ending.Finished?
  {
    hide Text, GoodPhase, StateAt, Reference, Enough, Buf.Buffered;
    ending, out := GaveUp, [];
    var w := new ArchiveWriter(fmt, writeCapacity, sink);
    written := WriteArchive(w, files, plan, writePolls);
    if written {
      var source := new Source(sink.received, pulls);
      ending, out := ReadBack(fmt, files, source, readCapacity, rooms, readPolls);
    }
  }

  /** A source that delivers 100 bytes first, and then as much as there is room for. */
  function HundredFirst(): Schedule {
    i => if i == 0 then Move(100) else Move(1024)
  }

  lemma SplitByHundred()
    ensures NeverZero(HundredFirst()) && Willing(HundredFirst())
    ensures HeaderSplit(HundredFirst(), 0, 0, 1024, 2048, 0, 0) == Some(Split(100, 1124))
  {
    var schedule := HundredFirst();
    assert forall i: nat :: EventAt(schedule, i) == if i == 0 then Move(100) else Move(1024);
    assert RefillTo(schedule, 1, 100, 1024, 2048, BLOCK_SIZE) == Some(Refill(100, 1124));
  }

  lemma HundredLater(h: seq<byte>, d: seq<byte>, z: seq<byte>)
    requires |h| == BLOCK_SIZE && |d| == BLOCK_SIZE && |z| >= 100
    ensures (h + d + z)[100..1124][..BLOCK_SIZE] == h[100..] + d[..100]
    ensures (h + d + z)[0..BLOCK_SIZE] == h
  {
    var s := h + d + z;
    assert s[100..1124][..BLOCK_SIZE] == s[100..612];
    assert s[100..612] == s[100..512] + s[512..612];
    assert s[100..512] == h[100..] && s[512..612] == d[..100];
  }

  /** An archive of one file of one block, and the block that lies 100 bytes into it. */
  lemma OneFile(fmt: Format, h: seq<byte>, d: seq<byte>)
    requires IsHeader(h) && SizeOf(fmt, h) == Some(BLOCK_SIZE) && |d| == BLOCK_SIZE
    requires ValidHeader(fmt, h) && ValidHeader(fmt, h[100..] + d[..100])
    requires SizeOf(fmt, h[100..] + d[..100]).Some?
    ensures var data := Archive([Entry(h, d, [])]);
            && |data| == 2048 && NextResult(fmt, data, 0) == Ready(Some(h))
            && FrontHeader(fmt, data[100..1124]) == Ready(Some(h[100..] + d[..100]))
  {
    var e := Entry(h, d, []);
    assert Encode([e]) == EntryBytes(e) + [] == h + d;
    assert Archive([e]) == h + d + Zeros(2 * BLOCK_SIZE);
    HundredLater(h, d, Zeros(2 * BLOCK_SIZE));
  }

  /**
    A reader that hands out a wrong header. The first read splits the header of a good archive, and
    the block that lies 100 bytes later passes for a header as well.
  */
  method WrongHeader(fmt: Format, h: seq<byte>, d: seq<byte>) returns (rd: ArchiveReader, r: Poll<Option<seq<byte>>>)
    requires IsHeader(h) && SizeOf(fmt, h) == Some(BLOCK_SIZE) && |d| == BLOCK_SIZE
    requires ValidHeader(fmt, h) && ValidHeader(fmt, h[100..] + d[..100])
    requires SizeOf(fmt, h[100..] + d[..100]).Some?
    ensures rd.fmt == fmt && rd.io.data == Archive([Entry(h, d, [])])
    ensures NextResult(fmt, rd.io.data, 0) == Ready(Some(h)) && r == Ready(Some(h[100..] + d[..100]))
  {
    hide Text, GoodPhase, StateAt, WellFormed, Archive, NextResult, NeverZero, HeaderSplit, Buf.Buffered, FrontHeader,
      Boundary, SameEntries, Settled, IsHeader, IsVerdict, Encode, ArchiveReader.BufferValid, ArchiveReader.Aligned;
    OneFile(fmt, h, d);
    SplitByHundred();
    var source := new Source(Archive([Entry(h, d, [])]), HundredFirst());
    rd := new ArchiveReader(fmt, 2, source);
    StartBoundary(fmt);
    ghost var late;
    r, late := rd.PollNextEntry();
    WillingNeverBlames(source.schedule, 0, source.clock, r);
    HeaderIsVerdict(fmt, h);
    if late > 0 {
      FrontIsVerdict(fmt, source.data[late..source.off]);
    }
  }

  lemma HeaderIsVerdict(fmt: Format, h: seq<byte>)
    ensures IsVerdict(Ready(Some(h)))
  {
  }

  lemma FrontIsVerdict(fmt: Format, front: seq<byte>)
    ensures IsVerdict(FrontHeader(fmt, front))
  {
  }

  lemma StartBoundary(fmt: Format)
    ensures Boundary(fmt, START) == 0
  {
  }

  /** Past the end of the archive the answer is None for ever, and the source is left alone. */
  method AskAfterEnd(rd: ArchiveReader, times: nat) returns (nones: nat)
    requires rd.Valid() && rd.cur.at.Done?
    modifies rd`state, rd`cur, rd.buf, rd.buf.data, rd.io`clock, rd.io`off
    ensures nones == times
    ensures rd.Valid() && rd.cur == old(rd.cur) && rd.Offset() == old(rd.Offset()) && rd.io.clock == old(rd.io.clock)
  {
    hide Text, GoodPhase, StateAt, Buf.Buffered;
    nones := 0;
    for i := 0 to times
      invariant nones == i
      invariant rd.Valid() && rd.cur == old(rd.cur) && rd.Offset() == old(rd.Offset())
      invariant rd.io.clock == old(rd.io.clock)
    {
      var r, late := rd.PollNextEntry();
      if r == Ready(None) {
        nones := nones + 1;
      }
    }
  }

  /**
    What a client may do with an entry: one read, reading exactly its data, reading on until a read
    returns nothing, or skipping.
  */
  datatype Way = Read(room: nat) | Exactly(room: nat) | ToEnd(room: nat) | Skip

  /** This way is over only when all data of the entry was consumed. */
  predicate Leaves(way: Way, size: nat) {
    match way
    case Read(_) => false
    case Exactly(room) => room > 0 && size > 0
    case ToEnd(room) => room > 0
    case Skip => size > 0
  }

  ghost predicate SomeLeaves(script: seq<Way>, size: nat) {
    exists i :: 0 <= i < |script| && Leaves(script[i], size)
  }

  lemma OneMoreWay(script: seq<Way>, i: nat, size: nat)
    requires i < |script|
    ensures SomeLeaves(script[..i + 1], size) <==> SomeLeaves(script[..i], size) || Leaves(script[i], size)
  {
    assert script[..i + 1][i] == script[i];
    if j: nat :| j < i && Leaves(script[..i][j], size) {
      assert script[..i + 1][j] == script[..i][j];
    }
  }

  /** The data reaches to the end of the data of the entry, and has at least one byte after its header. */
  predicate Reaches(fmt: Format, c: Cursor, length: nat) {
    && c.at.HasHeader() && SizeOf(fmt, c.at.h).Some?
    && var n := SizeOf(fmt, c.at.h).value;
       |Encode(c.done)| + BLOCK_SIZE + (if n == 0 then 1 else n) <= length
  }

  /** Still in the same entry, or past it. */
  ghost predicate Onward(fmt: Format, c: Cursor, c': Cursor) {
    && Boundary(fmt, c') == Boundary(fmt, c)
    && (c'.at.Body? ==> c.at.Body?)
    && (c'.at.Body? || c'.at.Pad? ==> c'.done == c.done && c.at.HasHeader() && c'.at.h == c.at.h)
  }

  /** Inside the data of such an entry the data does not end. */
  lemma NotAtEnd(fmt: Format, c: Cursor, c': Cursor, length: nat)
    requires WellFormed(fmt, c') && c'.at.Body? && Onward(fmt, c, c') && Reaches(fmt, c, length)
    ensures |Text(c')| < length
  {
    hide Boundary;
  }

  /** Reads on, until all data was consumed or, if `toEnd`, until a read returns nothing. */
  method ReadOn(rd: ArchiveReader, header: seq<byte>, room: nat, toEnd: bool)
    requires rd.Valid() && rd.Aligned() && (rd.cur.at.Body? || rd.cur.at.Pad?) && rd.cur.at.h == header && room > 0
    modifies rd`state, rd`cur, rd.buf, rd.buf.data, rd.io`clock, rd.io`off
    ensures rd.Valid() && rd.Aligned() && !rd.cur.at.Done? && Onward(rd.fmt, old(rd.cur), rd.cur)
    ensures Willing(rd.io.schedule) && Reaches(rd.fmt, old(rd.cur), |rd.io.data|) ==>
      toEnd || SizeOf(rd.fmt, header) != Some(0) ==> !rd.cur.at.Body?
  {
    hide Text, GoodPhase, StateAt, Boundary, Progress, Encode, Seen, FilesOf, WholeBlocks, Reaches, Buf.Buffered;
    while true
      invariant rd.Valid() && rd.Aligned() && (rd.cur.at.Body? || rd.cur.at.Pad?)
      invariant Onward(rd.fmt, old(rd.cur), rd.cur)
      decreases 2 * |rd.io.data| - Progress(rd.cur)
    {
      StateOfPhase(rd.fmt, rd.cur.at);
      if !(if toEnd then rd.state.ReceivingData? || rd.state.AligningData?
           else rd.state.ReceivingData? && rd.state.drem > 0) {
        return;
      }
      ProgressInData(rd);
      var r := ReadSome(rd, header, room);
      ProgressInData(rd);
      if !r.Ready? || r.value == [] {
        if rd.cur.at.Body? && Reaches(rd.fmt, old(rd.cur), |rd.io.data|) {
          NotAtEnd(rd.fmt, old(rd.cur), rd.cur, |rd.io.data|);
        }
        return;
      }
    }
  }

  /** Skips an entry. Skipping one that is empty and was not read from panics. */
  method SkipOver(rd: ArchiveReader, header: seq<byte>) returns (panicked: bool)
    requires rd.Valid() && rd.Aligned() && (rd.cur.at.Body? || rd.cur.at.Pad?) && rd.cur.at.h == header
    modifies rd`state, rd`cur, rd.buf, rd.buf.data, rd.io`clock, rd.io`off
    ensures rd.Valid() && rd.Aligned() && !rd.cur.at.Done? && Onward(rd.fmt, old(rd.cur), rd.cur)
    ensures panicked ==> SizeOf(rd.fmt, header) == Some(0)
    ensures Willing(rd.io.schedule) && Reaches(rd.fmt, old(rd.cur), |rd.io.data|) ==>
      SizeOf(rd.fmt, header) != Some(0) ==> !rd.cur.at.Body?
  {
    hide Text, GoodPhase, StateAt, Boundary, Encode, WholeBlocks, Reaches, Skipped, Buf.Buffered;
    ghost var clock := rd.io.clock;
    var r := rd.PollSkip(header);
    if Willing(rd.io.schedule) { WillingNeverBlames(rd.io.schedule, clock, rd.io.clock, r); }
    if rd.cur.at.Body? && Reaches(rd.fmt, old(rd.cur), |rd.io.data|) {
      NotAtEnd(rd.fmt, old(rd.cur), rd.cur, |rd.io.data|);
    }
    panicked := r == Failed(Panic);
  }

  /** Takes one way with an entry that was not left yet. */
  method TakeWay(rd: ArchiveReader, header: seq<byte>, way: Way) returns (panicked: bool)
    requires rd.Valid() && rd.Aligned() && (rd.cur.at.Body? || rd.cur.at.Pad?) && rd.cur.at.h == header
    modifies rd`state, rd`cur, rd.buf, rd.buf.data, rd.io`clock, rd.io`off
    ensures rd.Valid() && rd.Aligned() && !rd.cur.at.Done? && Onward(rd.fmt, old(rd.cur), rd.cur)
    ensures panicked ==> way.Skip? && SizeOf(rd.fmt, header) == Some(0)
    ensures Willing(rd.io.schedule) && Reaches(rd.fmt, old(rd.cur), |rd.io.data|) ==>
      SizeOf(rd.fmt, header).Some? && Leaves(way, SizeOf(rd.fmt, header).value) ==> !rd.cur.at.Body?
  {
    hide Text, GoodPhase, StateAt, Boundary, WholeBlocks, Reaches, Progress, Seen, FilesOf, Buf.Buffered;
    panicked := false;
    match way {
      case Read(room) =>
        if room > 0 {
          var r := ReadSome(rd, header, room);
        }
      case Exactly(room) =>
        if room > 0 {
          ReadOn(rd, header, room, false);
        }
      case ToEnd(room) =>
        if room > 0 {
          ReadOn(rd, header, room, true);
        }
      case Skip =>
        panicked := SkipOver(rd, header);
    }
  }

  /**
    Leaves an entry in whatever ways the script says and asks for the next one as soon as all data
    of the entry was consumed. The answer does not depend on the ways taken, and it is found at the
    same offset. A script that reads the entry up, or skips it if it is not empty, is enough to get
    there on a source that always delivers something.
  */
  method LeaveAndNext(rd: ArchiveReader, header: seq<byte>, script: seq<Way>)
    returns (asked: bool, r: Poll<Option<seq<byte>>>)
    requires rd.Valid() && rd.Aligned() && rd.cur.at.Body? && rd.cur.at.h == header
    modifies rd`state, rd`cur, rd.buf, rd.buf.data, rd.io`clock, rd.io`off
    ensures rd.Valid() && rd.Aligned()
    ensures asked && Decided(r) ==> r == NextResult(rd.fmt, rd.io.data, Boundary(rd.fmt, old(rd.cur)))
    ensures asked && r.Ready? && r.value.Some? ==>
      rd.cur.at == Body(r.value.value, []) && |Encode(rd.cur.done)| == Boundary(rd.fmt, old(rd.cur))
    ensures
      var size := SizeOf(rd.fmt, header).value;
      Willing(rd.io.schedule) && Reaches(rd.fmt, old(rd.cur), |rd.io.data|) ==>
        SomeLeaves(script, size) && (size == 0 ==> Skip !in script) ==> asked && Decided(r)
  {
    hide Text, GoodPhase, StateAt, Boundary, NextResult, SameEntries, WholeBlocks, Reaches, SomeLeaves, Buf.Buffered,
      NeverZero, Settled,
      WellFormedEntries, Leaves;
    asked, r := false, Pending;
    StateOfPhase(rd.fmt, rd.cur.at);
    ghost var size := SizeOf(rd.fmt, header).value;
    ghost var sure := Willing(rd.io.schedule) && Reaches(rd.fmt, rd.cur, |rd.io.data|);
    NoWay(size);
    assert script[..0] == [];
    for i := 0 to |script|
      invariant rd.Valid() && rd.Aligned() && (rd.cur.at.Body? || rd.cur.at.Pad?) && rd.cur.at.h == header
      invariant Onward(rd.fmt, old(rd.cur), rd.cur)
      invariant sure && SomeLeaves(script[..i], size) ==> !rd.cur.at.Body?
    {
      OneMoreWay(script, i, size);
      SameReach(rd.fmt, old(rd.cur), rd.cur, |rd.io.data|);
      var panicked := TakeWay(rd, header, script[i]);
      if panicked {
        assert Skip in script;
        return;
      }
      StateOfPhase(rd.fmt, rd.cur.at);
      if !rd.state.ReceivingData? && !rd.state.AligningData? {
        break;
      }
    }
    assert script[..|script|] == script;
    StateOfPhase(rd.fmt, rd.cur.at);
    asked := !rd.state.ReceivingData?;
    if asked {
      ghost var clock := rd.io.clock;
      ghost var late;
      r, late := rd.PollNextEntry();
      if Willing(rd.io.schedule) { WillingNeverBlames(rd.io.schedule, clock, rd.io.clock, r); }
    }
  }

  lemma NoWay(size: nat)
    ensures !SomeLeaves([], size)
  {
  }

  lemma SameReach(fmt: Format, c: Cursor, c': Cursor, length: nat)
    requires Onward(fmt, c, c') && (c'.at.Body? || c'.at.Pad?)
    ensures Reaches(fmt, c', length) <==> Reaches(fmt, c, length)
  {
    hide Boundary;
  }
}
