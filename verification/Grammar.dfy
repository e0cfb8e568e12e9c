/**
  The language of archives and its unambiguity: what a stream says about entries can be read off
  its bytes in one way only.
*/
module Grammar {
  import opened Bytes
  import opened Format
  import opened Automaton
  import opened Position

  /** Two streams that do not contradict each other: one is a prefix of the other. */
  ghost predicate Agree(a: seq<byte>, b: seq<byte>) {
    a[..Min(|a|, |b|)] == b[..Min(|a|, |b|)]
  }

  lemma AgreeSplit(a: seq<byte>, a': seq<byte>, b: seq<byte>, b': seq<byte>)
    requires Agree(a + a', b + b')
    ensures |a| <= |b| ==> a <= b
    ensures |b| <= |a| ==> b <= a
    ensures |a| == |b| ==> a == b && Agree(a', b')
  {
    var x, y := a + a', b + b';
    var n := Min(|x|, |y|);
    assert x[..n] == y[..n];
    forall i | 0 <= i < |a| && i < |b| ensures a[i] == b[i] {
      assert x[..n][i] == a[i] && y[..n][i] == b[i];
    }
    if |a| == |b| {
      var m := Min(|a'|, |b'|);
      forall i | 0 <= i < m ensures a'[i] == b'[i] {
        assert x[..n][|a| + i] == a'[i] && y[..n][|a| + i] == b'[i];
      }
    }
  }

  /**
    Any stream of complete entries followed by a block that starts no entry: a zero block, or one
    whose size field does not decode. A complete archive is the case of two zero blocks.
  */
  function Stream(es: seq<Entry>, block: seq<byte>, tail: seq<byte>): seq<byte> {
    Encode(es) + (block + tail)
  }

  predicate StartsNoEntry(fmt: Format, block: seq<byte>) {
    |block| == BLOCK_SIZE && (AllZero(block) || SizeOf(fmt, block).None?)
  }

  lemma ArchiveIsStream(es: seq<Entry>)
    ensures Archive(es) == Stream(es, Zeros(BLOCK_SIZE), Zeros(BLOCK_SIZE))
  {
    assert Zeros(2 * BLOCK_SIZE) == Zeros(BLOCK_SIZE) + Zeros(BLOCK_SIZE);
  }

  /** The position lies inside such a stream, in the entry its bytes belong to. */
  ghost predicate Within(c: Cursor, es: seq<Entry>, block: seq<byte>) {
    && c.done <= es
    && var i := |c.done|;
    match c.at
    case Between => true
    case Head(x) => x <= if i < |es| then es[i].header else block
    case Headed(h) => h == if i < |es| then es[i].header else block
    case Body(h, d) => i < |es| && h == es[i].header && d <= es[i].data
    case BodyDone(h, d) => i < |es| && h == es[i].header && d == es[i].data
    case Pad(h, d, z) => i < |es| && h == es[i].header && d == es[i].data && z <= es[i].pad
    case Padded(h, d, z) => i < |es| && Entry(h, d, z) == es[i]
    case Trailer(_) => i == |es| && AllZero(block)
    case Done => i == |es| && AllZero(block)
  }

  function FirstBlock(es: seq<Entry>, block: seq<byte>): seq<byte> {
    if es == [] then block else es[0].header
  }

  function AfterFirstBlock(es: seq<Entry>, block: seq<byte>, tail: seq<byte>): seq<byte> {
    if es == [] then tail else es[0].data + (es[0].pad + Stream(es[1..], block, tail))
  }

  lemma SplitFirstBlock(es: seq<Entry>, block: seq<byte>, tail: seq<byte>)
    ensures Stream(es, block, tail) == FirstBlock(es, block) + AfterFirstBlock(es, block, tail)
  {
    if es != [] {
      var e, rest := es[0], Encode(es[1..]);
      assert e.header + e.data + e.pad + rest + (block + tail)
          == e.header + (e.data + (e.pad + (rest + (block + tail))));
    }
  }

  /** Unambiguity at the first entry. */
  lemma LocatedFirst(fmt: Format, at: Phase, es: seq<Entry>, block: seq<byte>, tail: seq<byte>)
    requires GoodPhase(fmt, at) && WellFormedEntries(fmt, es) && StartsNoEntry(fmt, block)
    requires Agree(Tail(at), Stream(es, block, tail))
    ensures Within(Cursor([], at), es, block)
  {
    SplitFirstBlock(es, block, tail);
    var f, g := FirstBlock(es, block), AfterFirstBlock(es, block, tail);
    assert es != [] ==> WellFormedEntry(fmt, es[0]);
    match at
    case Between =>
    case Head(x) =>
      AgreeSplit(x, [], f, g);
      assert x + [] == x;
    case Headed(h) =>
      AgreeSplit(h, [], f, g);
      assert h + [] == h;
    case Body(h, d) =>
      AgreeSplit(h, d, f, g);
      assert d + [] == d;
      AgreeSplit(d, [], es[0].data, es[0].pad + Stream(es[1..], block, tail));
    case BodyDone(h, d) =>
      AgreeSplit(h, d, f, g);
      assert d + [] == d;
      AgreeSplit(d, [], es[0].data, es[0].pad + Stream(es[1..], block, tail));
    case Pad(h, d, z) => LocatedPad(fmt, h, d, z, es, block, tail);
    case Padded(h, d, z) => LocatedPad(fmt, h, d, z, es, block, tail);
    case Trailer(k) =>
      assert Tail(at) == Zeros(BLOCK_SIZE) + Zeros(k);
      AgreeSplit(Zeros(BLOCK_SIZE), Zeros(k), f, g);
    case Done =>
      assert Tail(at) == Zeros(BLOCK_SIZE) + Zeros(BLOCK_SIZE);
      AgreeSplit(Zeros(BLOCK_SIZE), Zeros(BLOCK_SIZE), f, g);
  }

  lemma LocatedPad(fmt: Format, h: seq<byte>, d: seq<byte>, z: seq<byte>,
                   es: seq<Entry>, block: seq<byte>, tail: seq<byte>)
    requires WellFormedEntries(fmt, es) && StartsNoEntry(fmt, block)
    requires IsHeader(h) && SizeOf(fmt, h) == Some(|d|) && |z| <= PadLen(|d|)
    requires Agree(h + d + z, Stream(es, block, tail))
    ensures es != [] && h == es[0].header && d == es[0].data && z <= es[0].pad
  {
    SplitFirstBlock(es, block, tail);
    assert es != [] ==> WellFormedEntry(fmt, es[0]);
    assert h + d + z == h + (d + z);
    AgreeSplit(h, d + z, FirstBlock(es, block), AfterFirstBlock(es, block, tail));
    AgreeSplit(d, z, es[0].data, es[0].pad + Stream(es[1..], block, tail));
    assert z + [] == z;
    AgreeSplit(z, [], es[0].pad, Stream(es[1..], block, tail));
  }

  lemma RegroupEntry(e: Entry, rest: seq<byte>)
    ensures EntryBytes(e) + rest == e.header + (e.data + (e.pad + rest))
  {
  }

  /** A whole entry in front is the first entry of the stream. */
  lemma PeelEntry(fmt: Format, e: Entry, rest: seq<byte>, es: seq<Entry>, block: seq<byte>, tail: seq<byte>)
    requires WellFormedEntry(fmt, e) && WellFormedEntries(fmt, es) && StartsNoEntry(fmt, block)
    requires Agree(EntryBytes(e) + rest, Stream(es, block, tail))
    ensures es != [] && es[0] == e && Agree(rest, Stream(es[1..], block, tail))
  {
    hide Agree, Stream, EntryBytes, AllZero, Encode;
    SplitFirstBlock(es, block, tail);
    assert es != [] ==> WellFormedEntry(fmt, es[0]);
    RegroupEntry(e, rest);
    AgreeSplit(e.header, e.data + (e.pad + rest), FirstBlock(es, block), AfterFirstBlock(es, block, tail));
    AgreeSplit(e.data, e.pad + rest, es[0].data, es[0].pad + Stream(es[1..], block, tail));
    AgreeSplit(e.pad, rest, es[0].pad, Stream(es[1..], block, tail));
  }

  /** Unambiguity: a position whose text does not contradict a stream lies within that stream. */
  lemma {:induction false} Located(fmt: Format, c: Cursor, es: seq<Entry>, block: seq<byte>, tail: seq<byte>)
    requires WellFormed(fmt, c) && WellFormedEntries(fmt, es) && StartsNoEntry(fmt, block)
    requires Agree(Text(c), Stream(es, block, tail))
    ensures Within(c, es, block)
    decreases |c.done|
  {
    if c.done == [] {
      assert Text(c) == Tail(c.at);
      LocatedFirst(fmt, c.at, es, block, tail);
    } else {
      var e, c' := c.done[0], Cursor(c.done[1..], c.at);
      assert Text(c) == EntryBytes(e) + Text(c');
      PeelEntry(fmt, e, Text(c'), es, block, tail);
      Located(fmt, c', es[1..], block, tail);
      assert c.done == [e] + c'.done && es == [e] + es[1..];
    }
  }

  /** How far into the stream a position can be. */
  lemma WithinLength(fmt: Format, c: Cursor, es: seq<Entry>, block: seq<byte>)
    requires WellFormed(fmt, c) && WellFormedEntries(fmt, es) && |block| == BLOCK_SIZE
    requires Within(c, es, block)
    ensures |Text(c)| == |Encode(c.done)| + |Tail(c.at)|
    ensures |c.done| == |es| ==> c.done == es
    ensures |c.done| < |es| ==> |Text(c)| <= |Encode(es)|
    ensures !c.at.Trailer? && !c.at.Done? ==> |Text(c)| <= |Encode(es)| + BLOCK_SIZE
  {
    var i := |c.done|;
    if i < |es| {
      assert es == es[..i] + es[i..] && es[..i] == c.done;
      EncodeAppend(es[..i], es[i..]);
      EntryAligned(fmt, es[i]);
    } else {
      assert c.done == es;
    }
  }

  /** What a run of the automaton over a stream tells, the header of each entry being supplied. */
  function Drive(fmt: Format, s: State, block: seq<byte>, stream: seq<byte>): Step
    decreases |stream|, Rank(s)
  {
    if stream == [] then Ok(s, 0)
    else
      var r := Next(fmt, s, stream, Some(block));
      if r.Err? then r
      else Bump(Drive(fmt, r.state, Captured(s, block, stream[..r.taken]), stream[r.taken..]), r.taken)
  }

  /** The header block as it is being received. */
  function Captured(s: State, block: seq<byte>, w: seq<byte>): seq<byte> {
    if s.ExpectingHeader? then [] else if s.ReceivingHeader? then block + w else block
  }

  predicate Holds(at: Phase, block: seq<byte>) {
    (at.Head? ==> block == at.x) && (at.HasHeader() ==> block == at.h)
  }

  /** Why a step fails at a position. */
  lemma NextFails(fmt: Format, c: Cursor, buf: seq<byte>, block: seq<byte>)
    requires WellFormed(fmt, c) && Holds(c.at, block)
    ensures var r := Next(fmt, StateAt(fmt, c.at), buf, Some(block));
            r.Err? ==> Stuck(fmt, c.at, buf, r.error)
  {
  }

  ghost predicate Stuck(fmt: Format, at: Phase, rest: seq<byte>, e: Malformed) {
    match e
    case ExpectingEmptyBlock => at.Trailer? && at.k < BLOCK_SIZE && !AllZero(Clip(rest, BLOCK_SIZE - at.k))
    case Eof => at.Done?
    case BadSize => at.Headed? && SizeOf(fmt, at.h).None?
    case MissingHeader => false
  }

  lemma FollowHolds(fmt: Format, c: Cursor, buf: seq<byte>, block: seq<byte>)
    requires WellFormed(fmt, c) && Holds(c.at, block)
    ensures var r := Next(fmt, StateAt(fmt, c.at), buf, Some(block));
            r.Ok? ==> Holds(Follow(fmt, c, buf).at, Captured(StateAt(fmt, c.at), block, buf[..r.taken]))
  {
  }

  /** A run ends at the position of the bytes it read, and if it failed, for a reason found there. */
  lemma {:induction false} DriveFollows(fmt: Format, c: Cursor, block: seq<byte>, stream: seq<byte>)
    returns (c': Cursor, rest: seq<byte>)
    requires WellFormed(fmt, c) && Holds(c.at, block)
    ensures WellFormed(fmt, c') && Text(c) + stream == Text(c') + rest
    ensures var r := Drive(fmt, StateAt(fmt, c.at), block, stream);
            if r.Ok? then rest == [] && r.state == StateAt(fmt, c'.at)
            else rest != [] && Stuck(fmt, c'.at, rest, r.error)
    decreases |stream|, Rank(StateAt(fmt, c.at))
  {
    hide Next, GoodPhase, Text, StateAt, Follow, Stuck, Holds, Captured;
    c', rest := c, stream;
    var s := StateAt(fmt, c.at);
    var r := Next(fmt, s, stream, Some(block));
    if stream != [] && r.Err? {
      NextFails(fmt, c, stream, block);
    } else if stream != [] {
      DriveStep(fmt, c, block, stream);
      var w := stream[..r.taken];
      c', rest := DriveFollows(fmt, Follow(fmt, c, stream), Captured(s, block, w), stream[r.taken..]);
      assert Text(c) + stream == Text(c) + w + stream[r.taken..];
    }
  }

  lemma DriveStep(fmt: Format, c: Cursor, block: seq<byte>, stream: seq<byte>)
    requires WellFormed(fmt, c) && Holds(c.at, block)
    requires Next(fmt, StateAt(fmt, c.at), stream, Some(block)).Ok?
    ensures var s := StateAt(fmt, c.at);
            var r := Next(fmt, s, stream, Some(block));
            var c' := Follow(fmt, c, stream);
            && WellFormed(fmt, c') && Holds(c'.at, Captured(s, block, stream[..r.taken]))
            && StateAt(fmt, c'.at) == r.state
            && Text(c') == Text(c) + stream[..r.taken]
  {
    hide Next, Follow, Text;
    NextTracks(fmt, c, stream, Some(block));
    FollowHolds(fmt, c, stream, block);
  }

  /** The run over a whole stream from the initial state. */
  function Verdict(fmt: Format, stream: seq<byte>): Step {
    Drive(fmt, ExpectingHeader, [], stream)
  }

  /** Where a run over a stream of entries ends. */
  lemma VerdictOn(fmt: Format, es: seq<Entry>, block: seq<byte>, tail: seq<byte>)
    returns (c: Cursor, rest: seq<byte>)
    requires WellFormedEntries(fmt, es) && StartsNoEntry(fmt, block)
    ensures WellFormed(fmt, c) && Within(c, es, block)
    ensures Stream(es, block, tail) == Text(c) + rest
    ensures var r := Verdict(fmt, Stream(es, block, tail));
            if r.Ok? then rest == [] && r.state == StateAt(fmt, c.at)
            else rest != [] && Stuck(fmt, c.at, rest, r.error)
  {
    var stream := Stream(es, block, tail);
    c, rest := DriveFollows(fmt, START, [], stream);
    assert Text(START) + stream == stream;
    assert stream[..|Text(c)|] == Text(c);
    Located(fmt, c, es, block, tail);
  }

  /** Past the entries, a zero block and `k` more zeros leave exactly the bytes that follow them. */
  lemma RestAfterZeros(es: seq<Entry>, k: nat, tail: seq<byte>, rest: seq<byte>)
    requires Stream(es, Zeros(BLOCK_SIZE), tail) == Encode(es) + Zeros(BLOCK_SIZE + k) + rest
    ensures tail == Zeros(k) + rest
  {
    var z, zk := Zeros(BLOCK_SIZE), Zeros(k);
    assert Zeros(BLOCK_SIZE + k) == z + zk;
    assert Encode(es) + (z + zk) + rest == (Encode(es) + z) + (zk + rest);
    assert Encode(es) + (z + tail) == (Encode(es) + z) + tail;
    assert ((Encode(es) + z) + tail)[|Encode(es) + z|..] == tail;
    assert ((Encode(es) + z) + (zk + rest))[|Encode(es) + z|..] == zk + rest;
  }

  lemma ClipAfterZeros(k: nat, tail: seq<byte>, rest: seq<byte>)
    requires k <= BLOCK_SIZE && tail == Zeros(k) + rest
    ensures AllZero(Clip(tail, BLOCK_SIZE)) <==> AllZero(Clip(rest, BLOCK_SIZE - k))
    ensures rest == [] ==> AllZero(tail)
  {
    assert Clip(tail, BLOCK_SIZE) == Zeros(k) + Clip(rest, BLOCK_SIZE - k);
    AllZeroAppend(Zeros(k), Clip(rest, BLOCK_SIZE - k));
    assert Zeros(k) + [] == Zeros(k);
  }

  /** After the entries comes a zero block: the verdict depends on what follows it, and on nothing else. */
  lemma VerdictAfterZeroBlock(fmt: Format, es: seq<Entry>, tail: seq<byte>)
    requires WellFormedEntries(fmt, es)
    requires |tail| >= BLOCK_SIZE || !AllZero(tail)
    ensures var r := Verdict(fmt, Stream(es, Zeros(BLOCK_SIZE), tail));
            if !AllZero(Clip(tail, BLOCK_SIZE)) then r == Err(ExpectingEmptyBlock)
            else if |tail| == BLOCK_SIZE then r.Ok? && r.state == ReceivedEof
            else r == Err(Eof)
  {
    hide Stream, Verdict, WellFormedEntries, WellFormedEntry;
    var block := Zeros(BLOCK_SIZE);
    var c, rest := VerdictOn(fmt, es, block, tail);
    BeyondZeroBlock(fmt, es, tail, c, rest);
    var k := if c.at.Done? then BLOCK_SIZE else c.at.k;
    RestAfterZeros(es, k, tail, rest);
    ClipAfterZeros(k, tail, rest);
  }

  /** Only the trailer phases reach past the zero block. */
  lemma BeyondZeroBlock(fmt: Format, es: seq<Entry>, tail: seq<byte>, c: Cursor, rest: seq<byte>)
    requires WellFormed(fmt, c) && WellFormedEntries(fmt, es)
    requires Within(c, es, Zeros(BLOCK_SIZE))
    requires Stream(es, Zeros(BLOCK_SIZE), tail) == Text(c) + rest && tail != []
    requires rest == [] || exists e :: Stuck(fmt, c.at, rest, e)
    ensures c.done == es && (c.at.Trailer? || c.at.Done?)
  {
    WithinLength(fmt, c, es, Zeros(BLOCK_SIZE));
    assert |Stream(es, Zeros(BLOCK_SIZE), tail)| == |Encode(es)| + BLOCK_SIZE + |tail|;
  }

  /** The grammar: entries followed by two zero blocks. */
  ghost predicate IsArchive(fmt: Format, stream: seq<byte>) {
    exists es :: WellFormedEntries(fmt, es) && stream == Archive(es)
  }

  /** Entries and a zero block, then a block in which some byte is not zero. */
  ghost predicate HasBadTrailer(fmt: Format, stream: seq<byte>) {
    exists es, tail ::
      && WellFormedEntries(fmt, es) && stream == Stream(es, Zeros(BLOCK_SIZE), tail)
      && !AllZero(Clip(tail, BLOCK_SIZE))
  }

  /** An archive with something after it. */
  ghost predicate HasExtraBytes(fmt: Format, stream: seq<byte>) {
    exists es, tail ::
      && WellFormedEntries(fmt, es) && stream == Stream(es, Zeros(BLOCK_SIZE), tail)
      && |tail| > BLOCK_SIZE && AllZero(tail[..BLOCK_SIZE])
  }

  /** A header whose size field does not decode, with something after it. */
  ghost predicate HasBadSize(fmt: Format, stream: seq<byte>) {
    exists es, h, tail ::
      && WellFormedEntries(fmt, es) && stream == Stream(es, h, tail)
      && IsHeader(h) && SizeOf(fmt, h).None? && tail != []
  }

  lemma StuckInTrailer(fmt: Format, c: Cursor, rest: seq<byte>)
    requires WellFormed(fmt, c) && c.at.Trailer?
    requires !AllZero(Clip(rest, BLOCK_SIZE - c.at.k))
    ensures HasBadTrailer(fmt, Text(c) + rest)
  {
    var z, tail := Zeros(BLOCK_SIZE), Zeros(c.at.k) + rest;
    assert Zeros(BLOCK_SIZE + c.at.k) == z + Zeros(c.at.k);
    assert Text(c) + rest == Stream(c.done, z, tail);
    ClipAfterZeros(c.at.k, tail, rest);
  }

  lemma ArchiveComplete(fmt: Format, c: Cursor, rest: seq<byte>)
    requires WellFormed(fmt, c) && c.at.Done?
    ensures if rest == [] then IsArchive(fmt, Text(c) + rest) else HasExtraBytes(fmt, Text(c) + rest)
  {
    var z, tail := Zeros(BLOCK_SIZE), Zeros(BLOCK_SIZE) + rest;
    assert Zeros(2 * BLOCK_SIZE) == z + z;
    assert Text(c) + rest == Stream(c.done, z, tail) && tail[..BLOCK_SIZE] == z;
    assert rest == [] ==> Text(c) + rest == Archive(c.done);
  }

  lemma StuckAtHeader(fmt: Format, c: Cursor, rest: seq<byte>)
    requires WellFormed(fmt, c) && c.at.Headed? && SizeOf(fmt, c.at.h).None? && rest != []
    ensures HasBadSize(fmt, Text(c) + rest)
  {
    assert Text(c) + rest == Stream(c.done, c.at.h, rest);
  }

  lemma StartText(stream: seq<byte>)
    ensures Text(START) + stream == stream
  {
    assert Text(START) == [] + [];
  }

  lemma StateOfEnd(fmt: Format, at: Phase)
    requires GoodPhase(fmt, at)
    ensures StateAt(fmt, at) == ReceivedEof <==> at.Done?
    ensures StateAt(fmt, Between) == ExpectingHeader
  {
  }

  /** Forward: a verdict describes the stream. */
  lemma VerdictMeans(fmt: Format, stream: seq<byte>)
    ensures var r := Verdict(fmt, stream);
            && (r.Ok? && r.state == ReceivedEof ==> IsArchive(fmt, stream))
            && (r == Err(ExpectingEmptyBlock) ==> HasBadTrailer(fmt, stream))
            && (r == Err(Eof) ==> HasExtraBytes(fmt, stream))
            && (r == Err(BadSize) ==> HasBadSize(fmt, stream))
            && r != Err(MissingHeader)
  {
    hide HasBadTrailer, HasExtraBytes, IsArchive, HasBadSize, Next, Drive, Text, StateAt, AllZero;
    var r := Verdict(fmt, stream);
    StartText(stream);
    var c, rest := DriveFollows(fmt, START, [], stream);
    StateOfEnd(fmt, c.at);
    if r == Err(BadSize) {
      StuckAtHeader(fmt, c, rest);
    } else if r == Err(ExpectingEmptyBlock) {
      StuckInTrailer(fmt, c, rest);
    } else if r == Err(Eof) || (r.Ok? && r.state == ReceivedEof) {
      ArchiveComplete(fmt, c, rest);
    }
  }

  /** A header with an undecodable size stops the run there. */
  lemma VerdictOnBadSize(fmt: Format, es: seq<Entry>, h: seq<byte>, tail: seq<byte>)
    requires WellFormedEntries(fmt, es)
    requires IsHeader(h) && SizeOf(fmt, h).None? && tail != []
    ensures Verdict(fmt, Stream(es, h, tail)) == Err(BadSize)
  {
    hide Verdict;
    var c, rest := VerdictOn(fmt, es, h, tail);
    WithinLength(fmt, c, es, h);
    assert |Stream(es, h, tail)| == |Encode(es)| + BLOCK_SIZE + |tail|;
  }

  /**
    Grammar exactness. The automaton reaches ReceivedEof at the end of a stream exactly when the
    stream is an archive, and each way of rejecting characterises one family of other streams.
  */
  lemma VerdictIsExact(fmt: Format, stream: seq<byte>)
    ensures var r := Verdict(fmt, stream); r.Ok? && r.state == ReceivedEof <==> IsArchive(fmt, stream)
    ensures Verdict(fmt, stream) == Err(ExpectingEmptyBlock) <==> HasBadTrailer(fmt, stream)
    ensures Verdict(fmt, stream) == Err(Eof) <==> HasExtraBytes(fmt, stream)
    ensures Verdict(fmt, stream) == Err(BadSize) <==> HasBadSize(fmt, stream)
    ensures Verdict(fmt, stream) != Err(MissingHeader)
  {
    hide Verdict, Stream, WellFormedEntries;
    VerdictMeans(fmt, stream);
    if IsArchive(fmt, stream) {
      var es :| WellFormedEntries(fmt, es) && stream == Archive(es);
      ArchiveIsStream(es);
      VerdictAfterZeroBlock(fmt, es, Zeros(BLOCK_SIZE));
    }
    if HasBadTrailer(fmt, stream) {
      var es, tail :| WellFormedEntries(fmt, es) && stream == Stream(es, Zeros(BLOCK_SIZE), tail)
        && !AllZero(Clip(tail, BLOCK_SIZE));
      VerdictAfterZeroBlock(fmt, es, tail);
    }
    if HasExtraBytes(fmt, stream) {
      var es, tail :| WellFormedEntries(fmt, es) && stream == Stream(es, Zeros(BLOCK_SIZE), tail)
        && |tail| > BLOCK_SIZE && AllZero(tail[..BLOCK_SIZE]);
      VerdictAfterZeroBlock(fmt, es, tail);
    }
    if HasBadSize(fmt, stream) {
      var es, h, tail :| WellFormedEntries(fmt, es) && stream == Stream(es, h, tail)
        && IsHeader(h) && SizeOf(fmt, h).None? && tail != [];
      VerdictOnBadSize(fmt, es, h, tail);
    }
  }
}
